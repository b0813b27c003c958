/** Where a word ends: exactly which words the lexer reads as themselves, whatever follows them on the
    line, and so exactly which arrangements of tokens, blanks and comments it reads as their tokens. */
module RcfgWords {
  import opened Common
  import opened RcfgLexer
  import opened RcfgRoundTrip

  /** The token that a line starts with; none is the error return for a negative length. */
  function HeadToken(s: string): Option<string>
    requires s != ""
  {
    var k := Walk(s, 0, false).tend;
    if k < Quotes(s, k) then None else Some(Unquote(s, k))
  }

  lemma {:induction false} WalkBetween(s: string, k: nat, q: bool)
    requires k < |s| && !Stops(s[k])
    ensures !Stops(s[Walk(s, k, q).tend])
    decreases |s| - k
  {
    var here, next := s[k], CharAt(s, k + 1);
    if Stops(next) || (next == ' ' && !q) {
    } else {
      WalkBetween(s, k + 1, if here == '"' || next == '"' then !q else q);
    }
  }

  /** The lexer takes the head token, or gives up. */
  lemma HeadLexed(s: string)
    requires s != "" && !Stops(s[0]) && s[0] != ' ' && !OpensComment(s)
    ensures LexLine(s, false, false) == match HeadToken(s)
                                        case None => Bad
                                        case Some(t) =>
                                          var w := Walk(s, 0, false);
                                          Continue([t], LexLine(s[w.tend + 1..], false, w.quotation))
  {
    WalkBetween(s, 0, false);
    LexToken(s, false);
  }

  /* ---- Bare words ---- */

  lemma {:induction false} WalkInside(w: string, l: string, k: nat)
    requires k < |w| && forall i :: 0 <= i < |w| ==> BareChar(w[i])
    ensures Walk(w + l, k, false) == Walk(w + l, |w| - 1, false)
    decreases |w| - k
  {
    var s := w + l;
    assert s[k] == w[k];
    if k + 1 < |w| {
      assert CharAt(s, k + 1) == w[k + 1];
      WalkInside(w, l, k + 1);
    }
  }

  /** The one way in which a word is read as itself although something else follows it: a closing quote
      that was not opened, which is dropped. */
  predicate LoneQuote(l: string)
  {
    CharAt(l, 0) == '"' && Stops(CharAt(l, 1))
  }

  /** A bare word is read as itself if and only if a delimiter, a space or the end of the line follows it,
      or a lone quote. In particular not if a comment follows it directly. */
  lemma BareWordIff(w: string, l: string)
    requires BareOK(w)
    ensures HeadToken(w + l) == Some(w) <==> Separates(l) || LoneQuote(l)
  {
    var s, n := w + l, |w|;
    WalkInside(w, l, 0);
    assert s[0] == w[0] && s[n - 1] == w[n - 1] && BareChar(w[0]) && BareChar(w[n - 1]);
    assert CharAt(s, n) == CharAt(l, 0) && CharAt(s, n + 1) == CharAt(l, 1);
    assert s[0..n] == w;
    if !(l == "" || Stops(l[0]) || l[0] == ' ') {
      assert Walk(s, n - 1, false) == Walk(s, n, l[0] == '"');
      assert s[n] == l[0];
    }
  }

  /** A comment that follows a word directly becomes part of it. */
  lemma GluedComment(w: string, c: string)
    requires BareOK(w)
    ensures HeadToken(w + ("/*" + c)) != Some(w)
  {
    var l := "/*" + c;
    assert CharAt(l, 0) == '/';
    BareWordIff(w, l);
  }

  /** The concrete case. */
  lemma GluedCommentRead()
    ensures LexLine("a/**/;", false, false) == Lexed(["a/**/", ";"], false, false)
  {
    var s := "a/**/;";
    assert Walk(s, 4, false) == Walked(4, false);
    assert Walk(s, 2, false) == Walked(4, false);
    assert Walk(s, 0, false) == Walked(4, false);
    HeadLexed(s);
    assert s[0..5] == "a/**/" && s[5..] == ";";
    Semicolon();
    assert ["a/**/"] + [";"] == ["a/**/", ";"];
  }

  /* ---- Quoted words ---- */

  lemma {:induction false} WalkQuotes(w: string, l: string, k: nat)
    requires QuotedOK(w) && 1 <= k <= |w|
    ensures Walk("\"" + w + "\"" + l, k, true) == Walk("\"" + w + "\"" + l, |w| + 1, false)
    decreases |w| - k
  {
    var s := "\"" + w + "\"" + l;
    assert s[k] == w[k - 1] && QuotedChar(w[k - 1]);
    if k < |w| {
      assert CharAt(s, k + 1) == w[k] && QuotedChar(w[k]);
      WalkQuotes(w, l, k + 1);
    } else {
      assert CharAt(s, k + 1) == '"';
    }
  }

  lemma QuotedWordIff(w: string, l: string)
    requires QuotedOK(w)
    ensures HeadToken("\"" + w + "\"" + l) == Some(w) <==> Separates(l)
  {
    var s, n := "\"" + w + "\"" + l, |w| + 1;
    assert s[0] == '"' && CharAt(s, 1) == w[0] && QuotedChar(w[0]);
    assert Walk(s, 0, false) == Walk(s, 1, true);
    WalkQuotes(w, l, 1);
    assert s[n] == '"' && CharAt(s, n + 1) == CharAt(l, 0);
    assert s[1..n] == w;
    if !(l == "" || Stops(l[0]) || l[0] == ' ') {
      assert Walk(s, n, false) == Walk(s, n + 1, true);
    }
  }

  lemma SpaceLed(w: string, l: string)
    requires w != "" && w[0] == ' '
    ensures HeadToken("\"" + w + "\"" + l) == None
  {
    var s := "\"" + w + "\"" + l;
    assert s[0] == '"' && CharAt(s, 1) == ' ';
  }

  /** The empty word makes tokenize give up exactly if a delimiter or the end of the line follows it.
      Otherwise a word is read that starts with the second quote, and with a quote and a space if a space
      follows. */
  lemma EmptyWord(l: string)
    ensures HeadToken("\"\"" + l).None? <==> l == "" || Stops(l[0])
    ensures HeadToken("\"\"" + l).Some? ==> CharAt(HeadToken("\"\"" + l).value, 0) == '"'
    ensures CharAt(l, 0) == ' ' ==> HeadToken("\"\"" + l).Some? && "\" " <= HeadToken("\"\"" + l).value
  {
    var s := "\"\"" + l;
    assert s[0] == '"' && s[1] == '"' && CharAt(s, 2) == CharAt(l, 0);
    assert Walk(s, 0, false) == Walk(s, 1, true);
    if !(l == "" || Stops(l[0])) {
      assert s[2] == l[0] && CharAt(s, 3) == CharAt(l, 1);
      assert Walk(s, 1, true) == Walk(s, 2, false);
      var k := Walk(s, 2, false).tend;
      assert Unquote(s, k)[0] == s[1];
      if l[0] == ' ' {
        assert k == 2 ==> s[2] == ' ';
        assert Unquote(s, k)[..2] == s[1..3];
      }
    }
  }

  /** Among the words without a delimiter, and whatever follows the quotes on the line, exactly the
      non-empty ones that do not start with a space and are followed by a delimiter, a space or the end of
      the line are read as themselves. */
  lemma QuotedExactly(w: string, l: string)
    requires forall i :: 0 <= i < |w| ==> QuotedChar(w[i])
    ensures HeadToken("\"" + w + "\"" + l) == Some(w) <==> w != "" && w[0] != ' ' && Separates(l)
    ensures w != "" && w[0] == ' ' ==> HeadToken("\"" + w + "\"" + l) == None
  {
    if w == "" {
      assert "\"" + w + "\"" + l == "\"\"" + l;
      EmptyWord(l);
    } else if w[0] == ' ' {
      SpaceLed(w, l);
    } else {
      QuotedWordIff(w, l);
    }
  }

  /** The concrete case of an empty value that is not rejected. */
  lemma EmptyBeforeSpace()
    ensures LexLine("\"\" ;", false, false) == Lexed(["\" ", ";"], false, false)
  {
    var s := "\"\" ;";
    assert Walk(s, 2, false) == Walked(2, false);
    assert Walk(s, 0, false) == Walked(2, false);
    HeadLexed(s);
    assert s[1..3] == "\" " && s[3..] == ";";
    Semicolon();
    assert ["\" "] + [";"] == ["\" ", ";"];
  }

  /* ---- Arrangements ---- */

  /** An item that could be read as itself if what follows were separated from it. */
  predicate Arrangeable(item: Item, rest: string)
  {
    match item
    case Token(t, false) => IsPunctuation(t) || (BareOK(t) && !OpensComment(t + rest))
    case Token(t, true) => QuotedOK(t)
    case _ => ItemOK(item, rest)
  }

  predicate Arrangement(items: seq<Item>)
  {
    items == [] || (Arrangeable(items[0], RenderAll(items[1..])) && Arrangement(items[1..]))
  }

  predicate IsWord(item: Item)
  {
    item.Token? && (item.quoted || !IsPunctuation(item.text))
  }

  /** After each word comes punctuation, white space, a line comment or the end. */
  predicate Separated(items: seq<Item>)
  {
    items == [] || ((IsWord(items[0]) ==> Separates(RenderAll(items[1..]))) && Separated(items[1..]))
  }

  lemma {:induction false} SeparatedIsLayout(items: seq<Item>)
    requires Arrangement(items)
    ensures Separated(items) <==> LayoutOK(items)
  {
    if items == [] {
    } else {
      SeparatedIsLayout(items[1..]);
    }
  }

  lemma QuotedNoLoneQuote(t: string, rest: string)
    requires QuotedOK(t)
    ensures !LoneQuote(LineOf("\"" + t + "\"" + rest))
  {
    var x, y := "\"" + [t[0]], t[1..] + "\"" + rest;
    assert QuotedChar(t[0]);
    assert "\"" + t + "\"" + rest == x + y;
    LinePrefix(x, y);
    assert (x + LineOf(y))[1] == t[0];
  }

  lemma FirstChar(item: Item, rest: string)
    requires Arrangeable(item, rest) && !(item.Token? && item.quoted)
    ensures Render(item) != "" && Render(item)[0] != '"'
  {
    if item.Token? {
      assert !IsPunctuation(item.text) ==> BareChar(item.text[0]);
    }
  }

  /** No quoted word starts with a delimiter, so what follows a word in an arrangement is no lone quote. */
  lemma NoLoneQuote(items: seq<Item>)
    requires Arrangement(items)
    ensures !LoneQuote(LineOf(RenderAll(items)))
  {
    LineOfFirst(RenderAll(items));
    if items != [] {
      var item, rest := items[0], RenderAll(items[1..]);
      if item.Token? && item.quoted {
        QuotedNoLoneQuote(item.text, rest);
      } else {
        FirstChar(item, rest);
        assert RenderAll(items)[0] == Render(item)[0];
      }
    }
  }

  /** A line whose head token is not `w` is not read with `w` in front. */
  lemma HeadMisread(s: string, w: string)
    requires s != "" && !Stops(s[0]) && s[0] != ' ' && !OpensComment(s) && HeadToken(s) != Some(w)
    ensures var r := LexLine(s, false, false); r.Lexed? ==> r.toks != [] && r.toks[0] != w
  {
    HeadLexed(s);
  }

  lemma FirstWordMisread(item: Item, items: seq<Item>, toks: seq<string>)
    requires IsWord(item) && Arrangeable(item, RenderAll(items)) && Arrangement(items)
    requires !Separates(RenderAll(items))
    ensures LexFrom(Render(item) + RenderAll(items), false, false) != Lexed([item.text] + toks, false, false)
  {
    var rest, x, w := RenderAll(items), Render(item), item.text;
    var l := LineOf(rest);
    LineOfFirst(rest);
    WordRendered(item, rest);
    WordMisread(item, items);
    HeadMisread(x + l, w);
    LinePrefix(x, rest);
    LexFromLine(x + rest, false, false);
    match LexLine(x + l, false, false)
    case Bad =>
    case Lexed(ts, c', q') =>
      var more := LexFrom(AfterLine(rest), c', q');
      if more.Lexed? {
        assert (ts + more.toks)[0] != ([w] + toks)[0];
      }
  }

  lemma WordMisread(item: Item, items: seq<Item>)
    requires IsWord(item) && Arrangeable(item, RenderAll(items)) && Arrangement(items)
    requires !Separates(RenderAll(items)) && Render(item) != ""
    ensures HeadToken(Render(item) + LineOf(RenderAll(items))) != Some(item.text)
  {
    LineOfFirst(RenderAll(items));
    NoLoneQuote(items);
    if item.quoted {
      QuotedWordIff(item.text, LineOf(RenderAll(items)));
    } else {
      BareWordIff(item.text, LineOf(RenderAll(items)));
    }
  }

  lemma WordRendered(item: Item, rest: string)
    requires IsWord(item) && Arrangeable(item, rest) && rest != ""
    ensures OneLine(Render(item)) && Render(item) != ""
    ensures !Stops(Render(item)[0]) && Render(item)[0] != ' '
    ensures !OpensComment(Render(item) + LineOf(rest))
  {
    var x, w := Render(item), item.text;
    LineOfFirst(rest);
    if item.quoted {
      forall i | 0 <= i < |x| ensures x[i] != '\n' {
        assert 0 < i < |x| - 1 ==> x[i] == w[i - 1] && QuotedChar(w[i - 1]);
      }
      assert (x + LineOf(rest))[0] == '"';
    } else {
      assert BareChar(w[0]);
      forall i | 0 <= i < |x| ensures x[i] != '\n' {
        assert BareChar(w[i]);
      }
      assert CharAt(x + LineOf(rest), 1) == CharAt(x + rest, 1) && CharAt(x + LineOf(rest), 0) == CharAt(x + rest, 0);
    }
  }

  /** The lexer reads an arrangement as its tokens if and only if every word in it is separated from what
      follows: comments may stand anywhere between tokens except directly after a word. */
  lemma {:induction false} LexInvertsIff(items: seq<Item>)
    requires Arrangement(items)
    ensures LexFrom(RenderAll(items), false, false) == Lexed(TokensOf(items), false, false) <==> Separated(items)
  {
    SeparatedIsLayout(items);
    if Separated(items) {
      LexInvertsLayout(items);
    } else {
      var item, rest := items[0], items[1..];
      if IsWord(item) && !Separates(RenderAll(rest)) {
        FirstWordMisread(item, rest, TokensOf(rest));
      } else {
        LexInvertsIff(rest);
        ItemLexed(item, RenderAll(rest));
        Cancel(if item.Token? then [item.text] else [], LexFrom(RenderAll(rest), false, false), TokensOf(rest));
      }
    }
  }

  lemma Cancel(a: seq<string>, r: Lexed, b: seq<string>)
    requires r != Lexed(b, false, false)
    ensures Continue(a, r) != Lexed(a + b, false, false)
  {
    if r.Lexed? && a + r.toks == a + b {
      assert r.toks == (a + r.toks)[|a|..] == (a + b)[|a|..] == b;
    }
  }
}
