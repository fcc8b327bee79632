/** The tokens of a source text as one list, up to its end or to its first unknown character. */
module TokenStream {
  import opened Options
  import opened Tokens
  import opened Lexing
  import opened LexRoundTrip
  import opened LexedTokens

  ghost function TokensOf(s: string): seq<Token>
    decreases |s|
  {
    if SkipTrivia(s) == "" || LexOne(s).Unknown? then []
    else
      LexShrinks(s);
      [LexOne(s).token] + TokensOf(LexOne(s).rest)
  }

  lemma LexShrinks(s: string)
    requires SkipTrivia(s) != "" && LexOne(s).Lexed?
    ensures |LexOne(s).rest| < |s|
  {
    hide Operator, KeywordKind, SkipTrivia;
    var t := SkipTrivia(s);
    if IsDigit(t[0]) { DigitsAreAll(t, 0); }
    if IsIdentifier(t[0]) { NameLengthIsAll(t, 0); }
  }

  /** No character between the tokens and the end of the text is unknown. */
  ghost predicate Clean(s: string) {
    Lexes(s, |TokensOf(s)| + 1)
  }

  /** The list is what lexing finds, position by position; after it, a clean text has only the end. */
  lemma {:induction false} TokensOfAt(s: string, i: nat)
    ensures i < |TokensOf(s)| ==> Lexes(s, i + 1) && TokenAt(s, i) == TokensOf(s)[i]
    ensures i >= |TokensOf(s)| ==> (Lexes(s, i + 1) <==> Clean(s))
    ensures i >= |TokensOf(s)| && Clean(s) ==> TokenAt(s, i) == Token(EOF, "")
    decreases |s|
  {
    if SkipTrivia(s) == "" {
      OnlyEnd(s, i);
      OnlyEnd(s, 0);
    } else if LexOne(s).Unknown? {
      NothingLexed(s, i);
      NothingLexed(s, 0);
    } else {
      var rest := LexOne(s).rest;
      LexShrinks(s);
      FirstLexed(s, i);
      FirstLexed(s, |TokensOf(s)|);
      assert TokensOf(s) == [LexOne(s).token] + TokensOf(rest);
      hide LexOne, LexMany, TokenAt, Lexes;
      if i > 0 { TokensOfAt(rest, i - 1); }
    }
  }

  lemma FirstLexed(s: string, i: nat)
    requires LexOne(s).Lexed?
    ensures Lexes(s, i + 1) <==> Lexes(LexOne(s).rest, i)
    ensures Lexes(s, 1) && TokenAt(s, 0) == LexOne(s).token
    ensures i > 0 && Lexes(s, i + 1) ==> TokenAt(s, i) == TokenAt(LexOne(s).rest, i - 1)
  {
    hide LexOne;
    LexManyFront(s, i + 1);
    LexManyFront(s, 1);
  }

  lemma {:induction false} OnlyEnd(s: string, i: nat)
    requires SkipTrivia(s) == ""
    ensures Lexes(s, i + 1) && TokenAt(s, i) == Token(EOF, "") && LexMany(s, i + 1).value.1 == ""
  {
    assert LexOne(s) == Lexed(Token(EOF, ""), "") && SkipTrivia("") == "";
    if i > 0 {
      OnlyEnd(s, i - 1);
      assert LexOne("") == Lexed(Token(EOF, ""), "");
    }
  }

  lemma {:induction false} NothingLexed(s: string, i: nat)
    requires LexOne(s).Unknown?
    ensures !Lexes(s, i + 1)
  {
    hide LexOne;
    if i > 0 {
      NothingLexed(s, i - 1);
    } else {
      assert LexMany(s, 0) == Some(([], s));
    }
  }

  lemma {:induction false} TokensOfLexed(s: string)
    ensures forall t :: t in TokensOf(s) ==> Lexable(t) && t != Token(EOF, "")
    decreases |s|
  {
    if SkipTrivia(s) != "" && LexOne(s).Lexed? {
      LexShrinks(s);
      TokensOfLexed(LexOne(s).rest);
      TokenLexed(s);
      EndIsEmpty(s);
      hide LexOne, Lexable, SkipTrivia;
      assert TokensOf(s) == [LexOne(s).token] + TokensOf(LexOne(s).rest);
    }
  }

  /** Before the end of the text no token is the end of the text. */
  lemma EndIsEmpty(s: string)
    requires SkipTrivia(s) != "" && LexOne(s).Lexed?
    ensures LexOne(s).token != Token(EOF, "")
  {
    var t := SkipTrivia(s);
    OperatorRegular(t);
    hide Operator, SkipTrivia, Unquote, EscapeChar;
  }

  /** The tokens of a printed text are those printed, and nothing in it is unknown. */
  lemma TokensOfPrinted(ts: seq<Token>)
    requires forall t :: t in ts ==> Printable(t)
    ensures TokensOf(PrintAll(ts)) == ts && Clean(PrintAll(ts))
  {
    var s := PrintAll(ts);
    PrintedLength(ts);
    hide Printable, PrintAll, TokensOf, TokenAt, LexMany, Clean;
    forall i | 0 <= i < |ts| ensures TokensOf(s)[i] == ts[i] {
      PrintedTokens(ts, i);
      TokensOfAt(s, i);
    }
  }

  lemma PrintedLength(ts: seq<Token>)
    requires forall t :: t in ts ==> Printable(t)
    ensures |TokensOf(PrintAll(ts))| == |ts| && Clean(PrintAll(ts))
  {
    hide Printable, PrintAll, TokensOf;
    AllPrintedRead(ts);
    OnlyPrintedRead(ts);
  }

  lemma AllPrintedRead(ts: seq<Token>)
    requires forall t :: t in ts ==> Printable(t)
    ensures |TokensOf(PrintAll(ts))| >= |ts| && Clean(PrintAll(ts))
  {
    EndNotPrintable();
    hide Printable, PrintAll, TokensOf, TokenAt, LexMany;
    var s := PrintAll(ts);
    var n := |TokensOf(s)|;
    PrintedTokens(ts, n + 1);
    PrintedTokens(ts, n);
    TokensOfAt(s, n);
    assert TokenAt(s, n) == Token(EOF, "");
  }

  lemma OnlyPrintedRead(ts: seq<Token>)
    requires forall t :: t in ts ==> Printable(t)
    ensures |TokensOf(PrintAll(ts))| <= |ts|
  {
    hide Printable, PrintAll, TokensOf, TokenAt, LexMany;
    var s := PrintAll(ts);
    PrintedTokens(ts, |ts|);
    TokensOfAt(s, |ts|);
    if |ts| < |TokensOf(s)| { NoEndAt(s, |ts|); }
  }

  lemma NoEndAt(s: string, i: nat)
    requires i < |TokensOf(s)|
    ensures TokensOf(s)[i] != Token(EOF, "")
  {
    TokensOfLexed(s);
    hide TokensOf, Lexable;
    assert TokensOf(s)[i] in TokensOf(s);
  }

  lemma EndNotPrintable()
    ensures !Printable(Token(EOF, ""))
  {
  }
}
