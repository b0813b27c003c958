/** Text to tree and back: every layout of a configuration tree, with any white space, line breaks and
    comments of both kinds between its tokens, is read back as the same tree. */
module RcfgRoundTrip {
  import opened Common
  import opened RcfgParser
  import opened RcfgLexer

  /* ---- What the lexer can carry ---- */

  predicate BareChar(c: char)
  {
    !Stops(c) && c != ' ' && c != '"'
  }

  predicate QuotedChar(c: char)
  {
    !Stops(c) && c != '"'
  }

  /** A word that can be written without quotes. */
  predicate BareOK(w: string)
  {
    w != "" && !OpensComment(w) && forall i :: 0 <= i < |w| ==> BareChar(w[i])
  }

  /** A word that can be written in quotes. */
  predicate QuotedOK(w: string)
  {
    w != "" && w[0] != ' ' && forall i :: 0 <= i < |w| ==> QuotedChar(w[i])
  }

  predicate IsPunctuation(t: string)
  {
    t == "=" || t == "{" || t == "}" || t == ";"
  }

  /** The comment that starts `u` is not closed within `u`. */
  predicate Unclosed(u: string)
  {
    forall i :: 0 <= i < |u| ==> u[i] != '\0' && !(u[i] == '*' && (u + "*/")[i + 1] == '/')
  }

  /** A carriage return stands only in front of a newline. */
  predicate NoLoneReturn(u: string)
  {
    forall i :: 0 <= i < |u| && u[i] == '\r' ==> i + 1 < |u| && u[i + 1] == '\n'
  }

  /* ---- Layouts ---- */

  /** The pieces that a configuration text is made of. */
  datatype Item =
    | Token(text: string, quoted: bool)
    | Blank(tab: bool)
    | Newline(crlf: bool)
    | BlockComment(text: string)
    | LineComment(text: string)

  function Render(item: Item): string
  {
    match item
    case Token(t, quoted) => if quoted then "\"" + t + "\"" else t
    case Blank(tab) => if tab then "\t" else " "
    case Newline(crlf) => if crlf then "\r\n" else "\n"
    case BlockComment(t) => "/*" + t + "*/"
    case LineComment(t) => "#" + t
  }

  function RenderAll(items: seq<Item>): string
  {
    if items == [] then "" else Render(items[0]) + RenderAll(items[1..])
  }

  function TokensOf(items: seq<Item>): seq<string>
  {
    if items == [] then []
    else (if items[0].Token? then [items[0].text] else []) + TokensOf(items[1..])
  }

  /** What may follow a word directly. */
  predicate Separates(rest: string)
  {
    rest == "" || Stops(rest[0]) || rest[0] == ' '
  }

  predicate ItemOK(item: Item, rest: string)
  {
    match item
    case Token(t, false) => IsPunctuation(t) || (BareOK(t) && Separates(rest))
    case Token(t, true) => QuotedOK(t) && Separates(rest)
    case Blank(_) => true
    case Newline(_) => true
    case BlockComment(t) => Unclosed("/*" + t) && NoLoneReturn(t)
    case LineComment(t) =>
      && (forall i :: 0 <= i < |t| ==> t[i] != '\n' && t[i] != '\0')
      && (rest == "" || rest[0] == '\n' || rest[0] == '\r')
  }

  predicate LayoutOK(items: seq<Item>)
  {
    items == [] || (ItemOK(items[0], RenderAll(items[1..])) && LayoutOK(items[1..]))
  }

  /** Every line, with its newline, fits into one read of the line buffer. */
  predicate ShortLines(text: string)
    decreases |text|
  {
    text == "" || (LineLength(text, |text|) <= LINE_MAX && ShortLines(text[LineLength(text, |text|)..]))
  }

  /* ---- The lexer from the middle of a line, without the length limit ---- */

  function LexFrom(text: string, comment: bool, quotation: bool): Lexed
    decreases |text|
  {
    if text == "" then Lexed([], comment, quotation)
    else
      var n := LineLength(text, |text|);
      match LexLine(text[..n], comment, quotation)
      case Bad => Bad
      case Lexed(toks, c, q) => Continue(toks, LexFrom(text[n..], c, q))
  }

  lemma {:induction false} LineLengthLimit(text: string, m: nat, n: nat)
    requires LineLength(text, m) <= n <= m
    ensures LineLength(text, n) == LineLength(text, m)
  {
    if text != "" && m > 0 && text[0] != '\n' {
      LineLengthLimit(text[1..], m - 1, n - 1);
    }
  }

  lemma {:induction false} LineLengthWhole(text: string, m: nat)
    requires m >= |text|
    ensures LineLength(text, m) == LineLength(text, |text|)
  {
    if text != "" && text[0] != '\n' {
      LineLengthWhole(text[1..], m - 1);
    }
  }

  /** With short lines the line buffer makes no difference. */
  lemma {:induction false} LexTextIsLexFrom(text: string, comment: bool, quotation: bool)
    requires ShortLines(text)
    ensures LexText(text, comment, quotation) == LexFrom(text, comment, quotation)
    decreases |text|
  {
    if text != "" {
      var n := LineLength(text, |text|);
      if |text| <= LINE_MAX {
        LineLengthWhole(text, LINE_MAX);
      } else {
        LineLengthLimit(text, |text|, LINE_MAX);
      }
      match LexLine(text[..n], comment, quotation)
      case Bad =>
      case Lexed(toks, c, q) => LexTextIsLexFrom(text[n..], c, q);
    }
  }

  predicate OneLine(x: string)
  {
    forall i :: 0 <= i < |x| ==> x[i] != '\n'
  }

  /** The rest of the current line. */
  function LineOf(text: string): string
  {
    text[..LineLength(text, |text|)]
  }

  function AfterLine(text: string): string
  {
    text[LineLength(text, |text|)..]
  }

  lemma {:induction false} LinePrefix(x: string, rest: string)
    requires OneLine(x)
    ensures LineOf(x + rest) == x + LineOf(rest) && AfterLine(x + rest) == AfterLine(rest)
  {
    if x == "" {
      assert x + rest == rest;
    } else {
      var y := x[1..] + rest;
      LinePrefix(x[1..], rest);
      assert (x + rest)[1..] == y;
      assert LineLength(x + rest, |x + rest|) == 1 + LineLength(y, |y|);
      assert x + LineOf(rest) == [x[0]] + (x[1..] + LineOf(rest));
      assert LineOf(x + rest) == [x[0]] + LineOf(y);
    }
  }

  lemma LexFromLine(text: string, c: bool, q: bool)
    ensures LexFrom(text, c, q) == match LexLine(LineOf(text), c, q)
                                   case Bad => Bad
                                   case Lexed(toks, c', q') => Continue(toks, LexFrom(AfterLine(text), c', q'))
  {
    if text == "" {
      assert LineOf(text) == "" && AfterLine(text) == "";
    }
  }

  /** What the lexer does with `x` in front of every rest of a line, it does in front of a rest of text. */
  lemma LexPrefix(x: string, rest: string, toks: seq<string>, c: bool, q: bool)
    requires OneLine(x)
    requires LexLine(x + LineOf(rest), c, q) == Continue(toks, LexLine(LineOf(rest), false, false))
    ensures LexFrom(x + rest, c, q) == Continue(toks, LexFrom(rest, false, false))
  {
    LinePrefix(x, rest);
    LexFromLine(x + rest, c, q);
    LexFromLine(rest, false, false);
    match LexLine(LineOf(rest), false, false)
    case Bad =>
    case Lexed(more, c', q') => ContinueTwice(toks, more, LexFrom(AfterLine(rest), c', q'));
  }

  lemma LineOfFirst(rest: string)
    ensures LineOf(rest) == "" <==> rest == ""
    ensures rest != "" ==> LineOf(rest)[0] == rest[0]
  {
  }

  /* ---- One item at a time ---- */

  lemma BlankItem(tab: bool, rest: string)
    ensures LexFrom(Render(Blank(tab)) + rest, false, false) == LexFrom(rest, false, false)
  {
    var x, l := Render(Blank(tab)), LineOf(rest);
    assert (x + l)[1..] == l;
    assert SkipBlank(x + l) == SkipBlank(l);
    LexBlanks(x + l, false, false);
    LexBlanks(l, false, false);
    ContinueNone(LexLine(l, false, false));
    LexPrefix(x, rest, [], false, false);
    ContinueNone(LexFrom(rest, false, false));
  }

  lemma ContinueNone(r: Lexed)
    ensures Continue([], r) == r
  {
    if r.Lexed? {
      assert [] + r.toks == r.toks;
    }
  }

  lemma PunctuationItem(t: string, rest: string)
    requires IsPunctuation(t)
    ensures LexFrom(t + rest, false, false) == Continue([t], LexFrom(rest, false, false))
  {
    var l := LineOf(rest);
    var s := t + l;
    assert s[0] == t[0] && |t| == 1;
    LexToken(s, false);
    assert Walk(s, 0, false) == Walked(0, false);
    assert s[0..1] == t && s[1..] == l;
    LexPrefix(t, rest, [t], false, false);
  }

  lemma {:induction false} WalkBare(w: string, l: string, k: nat)
    requires k < |w| && (forall i :: 0 <= i < |w| ==> BareChar(w[i])) && Separates(l)
    ensures Walk(w + l, k, false) == Walked(|w| - 1, false)
    decreases |w| - k
  {
    var s := w + l;
    assert s[k] == w[k];
    if k + 1 < |w| {
      assert CharAt(s, k + 1) == w[k + 1];
      WalkBare(w, l, k + 1);
    } else {
      assert CharAt(s, k + 1) == CharAt(l, 0);
    }
  }

  lemma BareItem(w: string, rest: string)
    requires BareOK(w) && Separates(rest)
    ensures LexFrom(w + rest, false, false) == Continue([w], LexFrom(rest, false, false))
  {
    var l := LineOf(rest);
    LineOfFirst(rest);
    var s := w + l;
    assert s[0] == w[0] && BareChar(w[0]);
    assert CharAt(s, 1) == if |w| > 1 then w[1] else CharAt(l, 0);
    LexToken(s, false);
    WalkBare(w, l, 0);
    var k := |w| - 1;
    assert s[k] == w[k] && BareChar(w[k]);
    assert s[0..k + 1] == w && s[k + 1..] == l;
    LexPrefix(w, rest, [w], false, false);
  }

  /** Inside the quotes, up to the closing one. */
  lemma {:induction false} WalkQuoted(w: string, l: string, k: nat)
    requires QuotedOK(w) && Separates(l) && 1 <= k <= |w|
    ensures Walk("\"" + w + "\"" + l, k, true) == Walked(|w| + 1, false)
    decreases |w| - k
  {
    var s := "\"" + w + "\"" + l;
    assert s[k] == w[k - 1] && QuotedChar(w[k - 1]);
    if k < |w| {
      assert CharAt(s, k + 1) == w[k] && QuotedChar(w[k]);
      WalkQuoted(w, l, k + 1);
    } else {
      assert CharAt(s, k + 1) == '"';
      assert s[k + 1] == '"' && CharAt(s, k + 2) == CharAt(l, 0);
      assert Walk(s, k + 1, false) == Walked(k + 1, false);
    }
  }

  lemma QuotedLine(w: string, l: string)
    requires QuotedOK(w) && Separates(l)
    ensures LexLine("\"" + w + "\"" + l, false, false) == Continue([w], LexLine(l, false, false))
  {
    var s := "\"" + w + "\"" + l;
    assert s[0] == '"' && CharAt(s, 1) == w[0] && QuotedChar(w[0]);
    LexToken(s, false);
    WalkQuoted(w, l, 1);
    assert Walk(s, 0, false) == Walk(s, 1, true);
    var k := |w| + 1;
    assert s[k] == '"';
    assert s[1..k] == w && s[k + 1..] == l;
  }

  lemma QuotedItem(w: string, rest: string)
    requires QuotedOK(w) && Separates(rest)
    ensures LexFrom("\"" + w + "\"" + rest, false, false) == Continue([w], LexFrom(rest, false, false))
  {
    LineOfFirst(rest);
    QuotedLine(w, LineOf(rest));
    var x := "\"" + w + "\"";
    forall i | 0 <= i < |x| ensures x[i] != '\n' {
      assert 0 < i < |x| - 1 ==> x[i] == w[i - 1] && QuotedChar(w[i - 1]);
    }
    LexPrefix(x, rest, [w], false, false);
  }

  lemma Semicolon()
    ensures LexLine(";", false, false) == Lexed([";"], false, false)
  {
    var s := ";";
    LexToken(s, false);
    assert Walk(s, 0, false) == Walked(0, false);
    assert s[0..1] == s && s[1..] == "";
    assert LexLine("", false, false) == Lexed([], false, false);
  }

  lemma NewlineItem(crlf: bool, rest: string)
    ensures LexFrom(Render(Newline(crlf)) + rest, false, false) == LexFrom(rest, false, false)
  {
    var x := Render(Newline(crlf));
    var t := x + rest;
    if crlf {
      assert t[1..][0] == '\n';
      assert LineLength(t, |t|) == 1 + LineLength(t[1..], |t| - 1);
    }
    assert LineOf(t) == x && AfterLine(t) == rest;
    assert SkipBlank(x) == x;
    LexFromLine(t, false, false);
    ContinueNone(LexFrom(rest, false, false));
  }

  lemma LineCommentItem(c: string, rest: string)
    requires ItemOK(LineComment(c), rest)
    ensures LexFrom("#" + c + rest, false, false) == LexFrom(rest, false, false)
  {
    var x, l := "#" + c, LineOf(rest);
    LineOfFirst(rest);
    var s := x + l;
    assert s[0] == '#';
    LexToken(s, false);
    assert LexLine(s, false, false) == Lexed([], false, false);
    assert SkipBlank(l) == l && LexLine(l, false, false) == Lexed([], false, false);
    LexPrefix(x, rest, [], false, false);
    ContinueNone(LexFrom(rest, false, false));
  }

  /* ---- Comments that may span lines ---- */

  lemma {:induction false} CommentEndAt(u: string, l: string)
    requires Unclosed(u)
    ensures CommentEnd(u + "*/" + l) == "*/" + l
  {
    var s := u + "*/" + l;
    if u == "" {
      assert s == "*/" + l;
    } else {
      assert s[0] == u[0] && CharAt(s, 1) == (u + "*/")[1];
      assert s[1..] == u[1..] + "*/" + l;
      UnclosedTail(u, 1);
      CommentEndAt(u[1..], l);
    }
  }

  lemma UnclosedTail(u: string, k: nat)
    requires Unclosed(u) && k <= |u|
    ensures Unclosed(u[k..])
  {
    forall i | 0 <= i < |u[k..]|
      ensures u[k..][i] != '\0' && !(u[k..][i] == '*' && (u[k..] + "*/")[i + 1] == '/')
    {
      assert u[k..][i] == u[k + i] && (u[k..] + "*/")[i + 1] == (u + "*/")[k + i + 1];
    }
  }

  /** A line within a comment that does not close it. */
  lemma {:induction false} CommentEndNone(v: string)
    requires forall i :: 0 <= i < |v| ==> v[i] != '\0' && !(v[i] == '*' && CharAt(v, i + 1) == '/')
    ensures CommentEnd(v) == ""
  {
    if v != "" {
      assert v[0] != '\0' && !(v[0] == '*' && CharAt(v, 1) == '/');
      forall i | 0 <= i < |v[1..]| ensures v[1..][i] != '\0' && !(v[1..][i] == '*' && CharAt(v[1..], i + 1) == '/') {
        assert v[1..][i] == v[i + 1] && CharAt(v[1..], i + 1) == CharAt(v, i + 2);
      }
      CommentEndNone(v[1..]);
    }
  }

  lemma {:induction false} SkipBlankSuffix(s: string) returns (k: nat)
    ensures k <= |s| && SkipBlank(s) == s[k..] && forall i :: 0 <= i < k ==> IsBlank(s[i])
  {
    if IsBlank(CharAt(s, 0)) {
      k := SkipBlankSuffix(s[1..]);
      assert s[1..][k..] == s[k + 1..];
      forall i | 0 <= i < k + 1 ensures IsBlank(s[i]) {
        assert i > 0 ==> s[1..][i - 1] == s[i];
      }
      k := k + 1;
    } else {
      k := 0;
    }
  }

  lemma DropPrefix(u: string, mark: string, l: string, k: nat)
    requires k <= |u|
    ensures (u + mark + l)[k..] == u[k..] + mark + l
  {
  }

  lemma BlankAt(s: string, k: nat, i: nat)
    requires i < k <= |s| && forall m :: 0 <= m < k ==> IsBlank(s[m])
    ensures IsBlank(s[i])
  {
  }

  lemma NoLineEnd(u: string, k: nat)
    requires Unclosed(u) && NoLoneReturn(u) && OneLine(u) && k < |u|
    ensures !IsLineEnd(u[k])
  {
    assert k + 1 < |u| ==> u[k + 1] != '\n';
  }

  /** The last line of a comment. */
  lemma CommentLastLine(u: string, l: string, q: bool)
    requires Unclosed(u) && NoLoneReturn(u) && OneLine(u)
    ensures LexLine(u + "*/" + l, true, q) == LexLine(l, false, q)
  {
    var s := u + "*/" + l;
    var k := SkipBlankSuffix(s);
    assert s[|u|] == '*';
    assert k <= |u| by {
      if k > |u| {
        BlankAt(s, k, |u|);
      }
    }
    var v := u[k..];
    DropPrefix(u, "*/", l, k);
    UnclosedTail(u, k);
    LexBlanks(s, true, q);
    var c := CharAt(s[k..], 0);
    assert c == s[k];
    if k < |u| {
      NoLineEnd(u, k);
      assert s[k] == (u + "*/")[k] == u[k];
    }
    LexComment(s[k..], true, q);
    CommentEndAt(v, l);
    assert ("*/" + l)[2..] == l;
  }

  /** A line of a comment that is not its last. */
  lemma CommentInnerLine(line: string, q: bool)
    requires forall i :: 0 <= i < |line| ==> line[i] != '\0' && !(line[i] == '*' && CharAt(line, i + 1) == '/')
    ensures LexLine(line, true, q) == Lexed([], true, q)
  {
    var k := SkipBlankSuffix(line);
    var v := line[k..];
    LexBlanks(line, true, q);
    if !IsLineEnd(CharAt(v, 0)) {
      forall i | 0 <= i < |v| ensures v[i] != '\0' && !(v[i] == '*' && CharAt(v, i + 1) == '/') {
        assert v[i] == line[k + i] && CharAt(v, i + 1) == CharAt(line, k + i + 1);
      }
      LexComment(v, true, q);
      CommentEndNone(v);
    }
  }

  lemma {:induction false} FirstNewline(u: string) returns (n: nat)
    requires !OneLine(u)
    ensures n < |u| && u[n] == '\n' && OneLine(u[..n])
  {
    if u[0] == '\n' {
      n := 0;
    } else {
      assert !OneLine(u[1..]) by {
        var i :| 0 <= i < |u| && u[i] == '\n';
        assert u[1..][i - 1] == '\n';
      }
      n := FirstNewline(u[1..]);
      assert u[1..][n] == u[n + 1];
      var v := u[..n + 1];
      forall i | 0 <= i < |v| ensures v[i] != '\n' {
        assert i > 0 ==> u[1..][..n][i - 1] == v[i];
      }
      n := n + 1;
    }
  }

  /** One line further inside a comment. */
  lemma CommentNextLine(x: string, more: string, q: bool)
    requires OneLine(x)
    requires forall i :: 0 <= i < |x| ==> x[i] != '\0' && !(x[i] == '*' && CharAt(x, i + 1) == '/')
    ensures LexFrom(x + ("\n" + more), true, q) == LexFrom(more, true, q)
  {
    var t := x + ("\n" + more);
    LexFromLine(t, true, q);
    LinePrefix(x, "\n" + more);
    assert LineOf("\n" + more) == "\n" && AfterLine("\n" + more) == more;
    var line := x + "\n";
    forall i | 0 <= i < |line| ensures line[i] != '\0' && !(line[i] == '*' && CharAt(line, i + 1) == '/') {
      assert i < |x| ==> line[i] == x[i] && (i + 1 < |x| ==> CharAt(line, i + 1) == CharAt(x, i + 1));
    }
    CommentInnerLine(line, q);
    ContinueNone(LexFrom(more, true, q));
  }

  lemma CommentEndLine(u: string, rest: string, q: bool)
    requires Unclosed(u) && NoLoneReturn(u) && OneLine(u)
    ensures LexFrom(u + "*/" + rest, true, q) == LexFrom(rest, false, q)
  {
    LexFromLine(u + "*/" + rest, true, q);
    LinePrefix(u + "*/", rest);
    CommentLastLine(u, LineOf(rest), q);
    LexFromLine(rest, false, q);
  }

  /** From inside a comment the lexer gets to its end, however many lines it spans. */
  lemma {:induction false} CommentBody(u: string, rest: string, q: bool)
    requires Unclosed(u) && NoLoneReturn(u)
    ensures LexFrom(u + "*/" + rest, true, q) == LexFrom(rest, false, q)
    decreases |u|
  {
    if OneLine(u) {
      CommentEndLine(u, rest, q);
    } else {
      var n := FirstNewline(u);
      var x, u' := u[..n], u[n + 1..];
      assert u + "*/" + rest == x + ("\n" + (u' + "*/" + rest));
      forall i | 0 <= i < |x| ensures x[i] != '\0' && !(x[i] == '*' && CharAt(x, i + 1) == '/') {
        assert x[i] == u[i] && (i + 1 < |x| ==> CharAt(x, i + 1) == (u + "*/")[i + 1]);
      }
      CommentNextLine(x, u' + "*/" + rest, q);
      UnclosedTail(u, n + 1);
      assert forall i :: 0 <= i < |u'| ==> u'[i] == u[n + 1 + i];
      CommentBody(u', rest, q);
    }
  }

  lemma BlockCommentItem(c: string, rest: string)
    requires Unclosed("/*" + c) && NoLoneReturn(c)
    ensures LexFrom("/*" + c + "*/" + rest, false, false) == LexFrom(rest, false, false)
  {
    var u := "/*" + c;
    var t := u + "*/" + rest;
    assert t[0] == '/' && t[1] == '*';
    assert LineOf(t)[..2] == "/*" by {
      LinePrefix("/*", c + "*/" + rest);
      assert t == "/*" + (c + "*/" + rest);
    }
    var l := LineOf(t);
    assert l[0] == '/' && l[1] == '*';
    LexComment(l, false, false);
    LexComment(l, true, false);
    LexFromLine(t, false, false);
    LexFromLine(t, true, false);
    forall i | 0 <= i < |u| && u[i] == '\r' ensures i + 1 < |u| && u[i + 1] == '\n' {
      assert u[i] == c[i - 2];
    }
    CommentBody(u, rest, false);
  }

  /* ---- All items ---- */

  lemma ItemLexed(item: Item, rest: string)
    requires ItemOK(item, rest)
    ensures LexFrom(Render(item) + rest, false, false)
         == Continue(if item.Token? then [item.text] else [], LexFrom(rest, false, false))
  {
    ContinueNone(LexFrom(rest, false, false));
    match item {
      case Token(t, quoted) =>
        if quoted {
          QuotedItem(t, rest);
        } else if IsPunctuation(t) {
          PunctuationItem(t, rest);
        } else {
          BareItem(t, rest);
        }
      case Blank(tab) => BlankItem(tab, rest);
      case Newline(crlf) => NewlineItem(crlf, rest);
      case BlockComment(c) => BlockCommentItem(c, rest);
      case LineComment(c) => LineCommentItem(c, rest);
    }
  }

  /** The lexer inverts every layout. Module RcfgWords shows that it inverts no other arrangement of the
      same items. */
  lemma {:induction false} LexInvertsLayout(items: seq<Item>)
    requires LayoutOK(items)
    ensures LexFrom(RenderAll(items), false, false) == Lexed(TokensOf(items), false, false)
  {
    if items != [] {
      LexInvertsLayout(items[1..]);
      ItemLexed(items[0], RenderAll(items[1..]));
    }
  }

  /* ---- Text to tree ---- */

  /** Whatever the layout of a tree, reading the text gives back the tree under the file's root block if
      it is not empty, its names are keywords and its values pass their tables, and otherwise nothing. */
  lemma ReadInvertsLayout(items: seq<Item>, f: seq<Cfg>, filename: string, tables: Tables)
    requires LayoutOK(items) && TokensOf(items) == Flatten(f) && Plain(f)
    requires ShortLines(RenderAll(items)) && {"=", "{", "}", ";"} <= tables.keywords
    ensures Config(filename, RenderAll(items), tables)
         == if f != [] && NamesIn(f, tables.keywords) && tables.values(Flatten(f))
            then Some(Tree([Block(filename, f)])) else None
  {
    var text, toks := RenderAll(items), Flatten(f);
    LexTextIsLexFrom(text, false, false);
    LexInvertsLayout(items);
    FlattenBalanced(f);
    FlattenKeywords(f, tables.keywords);
    ParseInvertsFlatten(toks, 0, |toks|, f);
  }

  /* ---- A printer, so that every tree the lexer can carry has a layout ---- */

  predicate WordOK(w: string)
  {
    BareOK(w) || QuotedOK(w)
  }

  predicate Lexable(f: seq<Cfg>)
  {
    f == [] ||
    ((match f[0]
      case Assign(l, r) => WordOK(l) && WordOK(r)
      case Block(n, body) => WordOK(n) && Lexable(body))
     && Lexable(f[1..]))
  }

  /** Each statement fits into the line buffer. */
  predicate Fits(f: seq<Cfg>)
  {
    f == [] ||
    ((match f[0]
      case Assign(l, r) => |l| + |r| + 9 <= LINE_MAX
      case Block(n, body) => |n| + 5 <= LINE_MAX && Fits(body))
     && Fits(f[1..]))
  }

  function Word(w: string): Item
  {
    Token(w, !BareOK(w))
  }

  const SPACE := Blank(false)
  const NEWLINE := Newline(false)

  function Mark(t: string): Item
  {
    Token(t, false)
  }

  function Cons(x: Item, k: seq<Item>): seq<Item>
  {
    [x] + k
  }

  lemma ConsText(x: Item, k: seq<Item>)
    ensures RenderAll(Cons(x, k)) == Render(x) + RenderAll(k)
    ensures TokensOf(Cons(x, k)) == (if x.Token? then [x.text] else []) + TokensOf(k)
  {
    assert Cons(x, k)[1..] == k;
  }

  lemma ConsLayout(x: Item, k: seq<Item>, text: string)
    requires LayoutOK(k) && RenderAll(k) == text && ItemOK(x, text)
    ensures LayoutOK(Cons(x, k)) && RenderAll(Cons(x, k)) == Render(x) + text
  {
    assert Cons(x, k)[1..] == k;
  }

  /** A name and the punctuation after it. */
  function PrintLeft(w: string, mark: string, k: seq<Item>): seq<Item>
  {
    Cons(Word(w), Cons(SPACE, Cons(Mark(mark), k)))
  }

  function PrintRight(r: string, k: seq<Item>): seq<Item>
  {
    Cons(SPACE, Cons(Word(r), Cons(Mark(";"), Cons(NEWLINE, k))))
  }

  function PrintClose(k: seq<Item>): seq<Item>
  {
    Cons(Mark("}"), Cons(NEWLINE, k))
  }

  /** One statement or brace to a line in front of `k`, with quotes where a word needs them. */
  function Print(f: seq<Cfg>, k: seq<Item>): seq<Item>
  {
    if f == [] then k
    else
      match f[0]
      case Assign(l, r) => PrintLeft(l, "=", PrintRight(r, Print(f[1..], k)))
      case Block(n, body) => PrintLeft(n, "{", Cons(NEWLINE, Print(body, PrintClose(Print(f[1..], k)))))
  }

  /** A line in front of short lines. */
  lemma ShortLine(x: string, rest: string)
    requires OneLine(x) && |x| < LINE_MAX && ShortLines(rest)
    ensures ShortLines(x + ("\n" + rest))
  {
    var t := x + ("\n" + rest);
    LinePrefix(x, "\n" + rest);
    assert LineOf("\n" + rest) == "\n" && AfterLine("\n" + rest) == rest;
    assert |LineOf(t)| == |x| + 1 && AfterLine(t) == rest;
  }

  lemma WordLine(w: string)
    requires WordOK(w)
    ensures OneLine(Render(Word(w))) && |Render(Word(w))| <= |w| + 2
  {
    var x := Render(Word(w));
    forall i | 0 <= i < |x| ensures x[i] != '\n' {
      assert BareOK(w) ==> x[i] == w[i];
      assert !BareOK(w) && 0 < i < |x| - 1 ==> x[i] == w[i - 1];
    }
  }

  function LeftText(w: string, mark: string): string
  {
    Render(Word(w)) + " " + mark
  }

  function RightText(r: string): string
  {
    " " + Render(Word(r)) + ";"
  }

  lemma PrintLeftText(w: string, mark: string, k: seq<Item>)
    ensures TokensOf(PrintLeft(w, mark, k)) == [w, mark] + TokensOf(k)
    ensures RenderAll(PrintLeft(w, mark, k)) == LeftText(w, mark) + RenderAll(k)
  {
    var k1 := Cons(Mark(mark), k);
    ConsText(Mark(mark), k);
    ConsText(SPACE, k1);
    ConsText(Word(w), Cons(SPACE, k1));
    var r, t := Render(Word(w)), RenderAll(k);
    Associate(" ", mark, t);
    Associate(r, " " + mark, t);
    Associate(r, " ", mark);
    Associate([w], [mark], TokensOf(k));
  }

  /** A line end in front of `k`. */
  lemma LineEnd(k: seq<Item>)
    ensures TokensOf(Cons(NEWLINE, k)) == TokensOf(k) && RenderAll(Cons(NEWLINE, k)) == "\n" + RenderAll(k)
    ensures LayoutOK(k) ==> LayoutOK(Cons(NEWLINE, k))
  {
    ConsText(NEWLINE, k);
    assert [] + TokensOf(k) == TokensOf(k);
    assert Render(NEWLINE) == "\n";
    if LayoutOK(k) {
      ConsLayout(NEWLINE, k, RenderAll(k));
    }
  }

  lemma EndText(k: seq<Item>)
    ensures TokensOf(Cons(Mark(";"), Cons(NEWLINE, k))) == [";"] + TokensOf(k)
    ensures RenderAll(Cons(Mark(";"), Cons(NEWLINE, k))) == ";" + ("\n" + RenderAll(k))
  {
    LineEnd(k);
    ConsText(Mark(";"), Cons(NEWLINE, k));
  }

  lemma PrintRightText(r: string, k: seq<Item>)
    ensures TokensOf(PrintRight(r, k)) == [r, ";"] + TokensOf(k)
    ensures RenderAll(PrintRight(r, k)) == RightText(r) + ("\n" + RenderAll(k))
  {
    var k1 := Cons(Mark(";"), Cons(NEWLINE, k));
    EndText(k);
    ConsText(Word(r), k1);
    ConsText(SPACE, Cons(Word(r), k1));
    Associate([r], [";"], TokensOf(k));
    RightAssociate(Render(Word(r)), "\n" + RenderAll(k));
  }

  lemma RightAssociate(w: string, rest: string)
    ensures " " + (w + (";" + rest)) == " " + w + ";" + rest
  {
    Associate(w, ";", rest);
    Associate(" ", w + ";", rest);
    Associate(" ", w, ";");
  }

  lemma PrintLeftLayout(w: string, mark: string, k: seq<Item>)
    requires WordOK(w) && IsPunctuation(mark) && LayoutOK(k)
    ensures LayoutOK(PrintLeft(w, mark, k))
  {
    var t := RenderAll(k);
    ConsLayout(Mark(mark), k, t);
    ConsLayout(SPACE, Cons(Mark(mark), k), mark + t);
    ConsLayout(Word(w), Cons(SPACE, Cons(Mark(mark), k)), " " + (mark + t));
  }

  lemma PrintRightLayout(r: string, k: seq<Item>)
    requires WordOK(r) && LayoutOK(k)
    ensures LayoutOK(PrintRight(r, k))
  {
    var t, k1 := "\n" + RenderAll(k), Cons(NEWLINE, k);
    LineEnd(k);
    ConsLayout(Mark(";"), k1, t);
    ConsLayout(Word(r), Cons(Mark(";"), k1), ";" + t);
    ConsLayout(SPACE, Cons(Word(r), Cons(Mark(";"), k1)), Render(Word(r)) + (";" + t));
  }

  lemma StatementLine(l: string, r: string)
    requires WordOK(l) && WordOK(r)
    ensures var x := LeftText(l, "=") + RightText(r); OneLine(x) && |x| <= |l| + |r| + 8
  {
    WordLine(l);
    WordLine(r);
  }

  /** A statement, or the line that opens or closes a block, in front of `k`. */
  ghost predicate Extends(p: seq<Item>, k: seq<Item>, toks: seq<string>, short: bool)
  {
    && (LayoutOK(k) ==> LayoutOK(p))
    && TokensOf(p) == toks + TokensOf(k)
    && (short && ShortLines(RenderAll(k)) ==> ShortLines(RenderAll(p)))
  }

  lemma AssignOK(l: string, r: string, k: seq<Item>)
    requires WordOK(l) && WordOK(r)
    ensures Extends(PrintLeft(l, "=", PrintRight(r, k)), k, [l, "=", r, ";"], |l| + |r| + 9 <= LINE_MAX)
  {
    var p1 := PrintRight(r, k);
    var p := PrintLeft(l, "=", p1);
    PrintRightText(r, k);
    PrintLeftText(l, "=", p1);
    assert [l, "="] + ([r, ";"] + TokensOf(k)) == [l, "=", r, ";"] + TokensOf(k);
    if LayoutOK(k) {
      PrintRightLayout(r, k);
      PrintLeftLayout(l, "=", p1);
    }
    if |l| + |r| + 9 <= LINE_MAX && ShortLines(RenderAll(k)) {
      StatementLine(l, r);
      var a, b := LeftText(l, "="), RightText(r);
      ShortLine(a + b, RenderAll(k));
      Associate(a, b, "\n" + RenderAll(k));
    }
  }

  lemma Associate<T>(a: seq<T>, b: seq<T>, c: seq<T>)
    ensures a + (b + c) == a + b + c
  {
  }

  lemma OpenOK(n: string, k: seq<Item>)
    requires WordOK(n)
    ensures Extends(PrintLeft(n, "{", Cons(NEWLINE, k)), k, [n, "{"], |n| + 5 <= LINE_MAX)
  {
    var k1 := Cons(NEWLINE, k);
    LineEnd(k);
    PrintLeftText(n, "{", k1);
    if LayoutOK(k) {
      PrintLeftLayout(n, "{", k1);
    }
    if |n| + 5 <= LINE_MAX && ShortLines(RenderAll(k)) {
      LeftLine(n);
      ShortLine(LeftText(n, "{"), RenderAll(k));
    }
  }

  lemma LeftLine(n: string)
    requires WordOK(n)
    ensures OneLine(LeftText(n, "{")) && |LeftText(n, "{")| <= |n| + 4
  {
    WordLine(n);
  }

  lemma CloseOK(k: seq<Item>)
    ensures Extends(PrintClose(k), k, ["}"], true)
  {
    LineEnd(k);
    ConsText(Mark("}"), Cons(NEWLINE, k));
    if LayoutOK(k) {
      ConsLayout(Mark("}"), Cons(NEWLINE, k), "\n" + RenderAll(k));
    }
    if ShortLines(RenderAll(k)) {
      ShortLine("}", RenderAll(k));
    }
  }

  lemma ExtendsTwice(p: seq<Item>, q: seq<Item>, k: seq<Item>, a: seq<string>, b: seq<string>, s: bool, t: bool)
    requires Extends(p, q, a, s) && Extends(q, k, b, t)
    ensures Extends(p, k, a + b, s && t)
  {
    Associate(a, b, TokensOf(k));
  }

  /** Printing gives a layout of the flattened tree. */
  lemma {:induction false} PrintOK(f: seq<Cfg>, k: seq<Item>)
    requires Lexable(f)
    ensures Extends(Print(f, k), k, Flatten(f), Fits(f))
    decreases f
  {
    if f == [] {
      assert [] + TokensOf(k) == TokensOf(k);
    } else {
      var rest := Print(f[1..], k);
      PrintOK(f[1..], k);
      if f[0].Assign? {
        var l, r := f[0].lvalue, f[0].rvalue;
        AssignOK(l, r, rest);
        FlattenAssign(f);
        ExtendsTwice(Print(f, k), rest, k, [l, "=", r, ";"], Flatten(f[1..]), |l| + |r| + 9 <= LINE_MAX, Fits(f[1..]));
      } else {
        var n, body := f[0].name, f[0].body;
        var close := PrintClose(rest);
        FlattenBlock(f);
        CloseOK(rest);
        ExtendsTwice(close, rest, k, ["}"], Flatten(f[1..]), true, Fits(f[1..]));
        PrintOK(body, close);
        ExtendsTwice(Print(body, close), close, k, Flatten(body), ["}"] + Flatten(f[1..]), Fits(body), Fits(f[1..]));
        OpenOK(n, Print(body, close));
        ExtendsTwice(Print(f, k), Print(body, close), k, [n, "{"], Flatten(body) + (["}"] + Flatten(f[1..])),
                     |n| + 5 <= LINE_MAX, Fits(body) && Fits(f[1..]));
      }
    }
  }

  lemma {:induction false} LexableIsPlain(f: seq<Cfg>)
    requires Lexable(f)
    ensures Plain(f)
    decreases f
  {
    if f != [] {
      LexableIsPlain(f[1..]);
      match f[0] {
        case Assign(l, r) =>
          assert QuotedChar(l[0]) && QuotedChar(r[0]);
        case Block(n, body) =>
          assert QuotedChar(n[0]);
          LexableIsPlain(body);
      }
    }
  }

  /** Every non-empty tree of words that the lexer can carry, with keywords for names, values that pass
      their tables and statements that fit into the line buffer, survives printing and reading. */
  lemma PrintThenRead(f: seq<Cfg>, filename: string, tables: Tables)
    requires f != [] && Lexable(f) && Fits(f) && NamesIn(f, tables.keywords) && tables.values(Flatten(f))
    requires {"=", "{", "}", ";"} <= tables.keywords
    ensures Config(filename, RenderAll(Print(f, [])), tables) == Some(Tree([Block(filename, f)]))
  {
    PrintOK(f, []);
    LexableIsPlain(f);
    assert Flatten(f) + TokensOf([]) == Flatten(f);
    ReadInvertsLayout(Print(f, []), f, filename, tables);
  }
}
