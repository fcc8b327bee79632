/**
 What the lexer returns: operators by longest match, tokens of fixed spelling with that spelling,
 and, errors and ends aside, only tokens that printing and lexing give back.
 */
module LexedTokens {
  import opened Options
  import opened Tokens
  import opened Lexing
  import opened LexRoundTrip

  // --------------------------------------------------------- names, operators

  /** The operator read is the one the text spells. */
  lemma OperatorSpelled(s: string)
    ensures Operator(s).1 > 0 ==> s[..Operator(s).1] == Spelling(Operator(s).0)
  {
    ShortSpelled(s);
    LongSpelled(s);
    hide Operator, Spelling;
  }

  lemma ShortSpelled(s: string)
    ensures Operator(s).1 <= 3
    ensures Operator(s).1 == 1 ==> s[..1] == Spelling(Operator(s).0)
  {
  }

  lemma LongSpelled(s: string)
    ensures Operator(s).1 == 2 || Operator(s).1 == 3 ==> s[..Operator(s).1] == Spelling(Operator(s).0)
  {
    if s != [] && Operator(s).1 > 1 {
      LongStarts(s);
      var n := Operator(s).1;
      hide Operator, Spelling;
      if n == 3 {
        assert s[..n] == [s[0], s[1], s[2]];
        DotsSpelled(s);
      } else {
        assert s[..n] == [s[0], s[1]];
        if s[0] == '<' || s[0] == '>' || s[0] == '!' || s[0] == ':' || s[0] == '.' {
          ComparisonSpelled(s);
        } else {
          ArithmeticSpelled(s);
        }
      }
    }
  }

  lemma LongStarts(s: string)
    requires s != [] && Operator(s).1 > 1
    ensures Operator(s).1 <= 3 && (Operator(s).1 == 3 ==> s[0] == '.')
    ensures || s[0] == '<' || s[0] == '>' || s[0] == '!' || s[0] == ':' || s[0] == '.'
            || s[0] == '+' || s[0] == '-' || s[0] == '=' || s[0] == '*' || s[0] == '/'
  {
  }

  lemma DotsSpelled(s: string)
    requires Operator(s).1 == 3 && s[0] == '.'
    ensures Spelling(Operator(s).0) == [s[0], s[1], s[2]]
  {
  }

  lemma ComparisonSpelled(s: string)
    requires Operator(s).1 == 2
    requires s[0] == '<' || s[0] == '>' || s[0] == '!' || s[0] == ':' || s[0] == '.'
    ensures Spelling(Operator(s).0) == [s[0], s[1]]
  {
  }

  lemma ArithmeticSpelled(s: string)
    requires Operator(s).1 == 2
    requires s[0] == '+' || s[0] == '-' || s[0] == '=' || s[0] == '*' || s[0] == '/'
    ensures Spelling(Operator(s).0) == [s[0], s[1]]
  {
  }

  lemma OperatorRegular(s: string)
    ensures Operator(s).1 > 0 ==> Operator(s).0 != ERROR && Operator(s).0 != EOF
  {
  }

  /** No operator that the text starts with is longer than the one read. */
  lemma OperatorIsLongest(s: string, k: TokenType)
    requires Spelling(k) != "" && !IsKeyword(k) && Spelling(k) <= s
    ensures |Spelling(k)| <= Operator(s).1
  {
    OperatorLengths(k);
    var n := |Spelling(k)|;
    hide Operator, Spelling;
    assert s[0] == Spelling(k)[0];
    if n == 1 {
      OneCharacter(k, s);
    } else {
      assert s[1] == Spelling(k)[1];
      if n == 2 {
        TwoCharacters(k, s);
      } else {
        assert s[2] == Spelling(k)[2];
        ThreeCharacters(k, s);
      }
    }
  }

  lemma OperatorLengths(k: TokenType)
    requires !IsKeyword(k)
    ensures |Spelling(k)| <= 3
  {
    if Spelling(k) != "" {
      OperatorKinds(k);
      hide IsKeyword;
    }
  }

  lemma OneCharacter(k: TokenType, s: string)
    requires |Spelling(k)| == 1 && !IsKeyword(k) && s != [] && s[0] == Spelling(k)[0]
    ensures Operator(s).1 >= 1
  {
    OperatorStarts(k);
    hide Spelling;
  }

  /** The characters that operators start with. */
  predicate StartsOperator(c: char) {
    || c == '+' || c == '-' || c == '=' || c == '*' || c == '/' || c == '<' || c == '>' || c == '!' || c == ':'
    || c == '.' || c == '%' || c == '$' || c == '&' || c == '|' || c == '(' || c == ')' || c == '{' || c == '}'
    || c == '#' || c == '@' || c == '~' || c == ',' || c == ';' || c == '?' || c == '^' || c == '[' || c == ']'
  }

  lemma OperatorStarts(k: TokenType)
    requires Spelling(k) != "" && !IsKeyword(k)
    ensures StartsOperator(Spelling(k)[0])
  {
    OperatorKinds(k);
    hide IsKeyword;
  }

  lemma TwoCharacters(k: TokenType, s: string)
    requires |Spelling(k)| == 2 && !IsKeyword(k) && |s| >= 2 && s[0] == Spelling(k)[0] && s[1] == Spelling(k)[1]
    ensures Operator(s).1 >= 2
  {
  }

  lemma ThreeCharacters(k: TokenType, s: string)
    requires |Spelling(k)| == 3 && !IsKeyword(k) && |s| >= 3
    requires s[0] == Spelling(k)[0] && s[1] == Spelling(k)[1] && s[2] == Spelling(k)[2]
    ensures Operator(s).1 >= 3
  {
  }

  /** A name read as a keyword spells that keyword. */
  lemma KeywordSpelled(s: string)
    ensures KeywordKind(s) == IDENTIFIER || Spelling(KeywordKind(s)) == s != ""
  {
  }

  // ---------------------------------------------------------- tokens of a text

  /** Neither an error nor the end. */
  predicate Regular(t: Token) {
    t.kind != ERROR && t.kind != EOF
  }

  /** What is true of every token the lexer returns. */
  ghost predicate Lexable(t: Token) {
    Canonical(t) && (Regular(t) ==> Printable(t))
  }

  lemma NumberLexed(s: string)
    requires s != [] && IsDigit(s[0])
    ensures Lexable(LexNumber(s).token)
  {
    hide Spelling, LexNumber, Lexable, IsDecimal;
    var n := Digits(s);
    DigitsAreAll(s, n);
    assert n > 0;
    assert AllDigits(s[..n]);
    NumberKinds(s);
    var tail := s[n..];
    if First(tail) == '.' && Second(tail) != '.' && Digits(tail[1..]) > 0 {
      FractionLexed(s, n, Digits(tail[1..]));
    }
    NumberLexable(LexNumber(s).token);
  }

  lemma FractionLexed(s: string, n: nat, m: nat)
    requires n < |s| && AllDigits(s[..n]) && s[n] == '.' && s[n..][1..] == s[n + 1..]
    requires m == Digits(s[n + 1..]) > 0
    ensures IsDecimal(s[..n + 1 + m])
  {
    DigitsAreAll(s[n + 1..], m);
    hide Digits;
    var whole := s[..n + 1 + m];
    assert whole[n] == '.' && whole[..n] == s[..n];
    assert whole[n + 1..] == s[n + 1..][..m];
    assert AllDigits(whole[n + 1..]);
  }

  lemma NumberKinds(s: string)
    requires s != [] && IsDigit(s[0])
    ensures LexNumber(s).Lexed?
    ensures
      var n, t := Digits(s), LexNumber(s).token;
      var tail := s[n..];
      if First(tail) != '.' || Second(tail) == '.' then t.kind == INTEGER_LITERAL && t.lexeme == s[..n]
      else if Digits(tail[1..]) == 0 then t.kind == ERROR
      else t.kind == DECIMAL_LITERAL && t.lexeme == s[..n + 1 + Digits(tail[1..])]
  {
    hide Digits, Spelling;
  }

  lemma NumberLexable(t: Token)
    requires || (t.kind == INTEGER_LITERAL && AllDigits(t.lexeme))
             || (t.kind == DECIMAL_LITERAL && IsDecimal(t.lexeme)) || t.kind == ERROR
    ensures Lexable(t)
  {
    hide AllDigits, IsDecimal;
  }

  lemma NameLexed(s: string)
    requires s != [] && IsIdentifier(s[0]) && !IsDigit(s[0])
    ensures Lexable(LexName(s).token)
  {
    var n := NameLength(s);
    KeywordSpelled(s[..n]);
    NameLengthIsAll(s, n);
    hide KeywordKind, Spelling;
    LiteralsUnspelled();
  }

  lemma LiteralLexed(s: string)
    requires s != [] && (s[0] == '"' || s[0] == '\'')
    ensures Lexable((if s[0] == '"' then LexString(s) else LexChar(s)).token)
  {
    hide Unquote, EscapeChar, Spelling;
    LiteralsUnspelled();
  }

  /** Whatever the text, the token returned is one of fixed spelling with that spelling, or prints and reads back. */
  lemma TokenLexed(s: string)
    ensures LexOne(s).Lexed? ==> Lexable(LexOne(s).token)
  {
    var t := SkipTrivia(s);
    OperatorSpelled(t);
    OperatorRegular(t);
    if t != [] && IsDigit(t[0]) {
      NumberLexed(t);
    } else if t != [] && IsIdentifier(t[0]) {
      NameLexed(t);
    } else if t != [] && (t[0] == '"' || t[0] == '\'') {
      LiteralLexed(t);
    }
    hide LexString, LexChar, LexNumber, LexName, KeywordKind;
    assert Spelling(EOF) == "";
    if t != [] && Operator(t).1 > 0 {
      FixedLexable(Operator(t).0);
    }
    hide Operator, Spelling, Printable, Lexable;
  }

  lemma FixedLexable(k: TokenType)
    requires Spelling(k) != ""
    ensures Lexable(Fixed(k))
  {
  }

  lemma {:induction false} TokensLexed(s: string, n: nat)
    requires LexMany(s, n).Some?
    ensures forall t :: t in LexMany(s, n).value.0 ==> Lexable(t)
  {
    hide LexOne, Lexable;
    if n > 0 {
      TokensLexed(s, n - 1);
      TokenLexed(LexMany(s, n - 1).value.1);
    }
  }

  /** Printing the tokens of any text without errors and lexing the result gives the same tokens. */
  lemma LexAgain(s: string, n: nat)
    requires LexMany(s, n).Some? && forall t :: t in LexMany(s, n).value.0 ==> Regular(t)
    ensures LexMany(PrintAll(LexMany(s, n).value.0), n) == Some((LexMany(s, n).value.0, ""))
  {
    TokensLexed(s, n);
    hide LexMany, Printable, PrintAll;
    TokensReadBack(LexMany(s, n).value.0);
  }
}
