/** Lexing undoes printing: tokens written out with single spaces are lexed back. */
module LexRoundTrip {
  import opened Options
  import opened Tokens
  import opened Lexing

  // ------------------------------------------------------------------ printing

  predicate NeedsEscape(c: char) { c == '"' || c == '\\' || c == '\'' }

  /** Writes a literal's characters so that they read back: quotes and backslashes escaped. */
  function Escape(s: string): string {
    if s == [] then []
    else (if NeedsEscape(s[0]) then ['\\', s[0]] else [s[0]]) + Escape(s[1..])
  }

  function Printed(t: Token): string {
    if t.kind == STRING_LITERAL then ['"'] + (Escape(t.lexeme) + ['"'])
    else if t.kind == CHAR_LITERAL then ['\''] + (Escape(t.lexeme) + ['\''])
    else t.lexeme
  }

  function PrintAll(ts: seq<Token>): string {
    if ts == [] then ""
    else if |ts| == 1 then Printed(ts[0])
    else Printed(ts[0]) + ([' '] + PrintAll(ts[1..]))
  }

  predicate AllDigits(s: string) {
    s != [] && forall i :: 0 <= i < |s| ==> IsDigit(s[i])
  }

  ghost predicate IsDecimal(s: string) {
    exists p :: 0 <= p < |s| && s[p] == '.' && AllDigits(s[..p]) && AllDigits(s[p + 1..])
  }

  predicate IsName(s: string) {
    s != [] && !IsDigit(s[0]) && (forall i :: 0 <= i < |s| ==> IsIdentifier(s[i])) && KeywordKind(s) == IDENTIFIER
  }

  /** Tokens a lexer can return other than the end and errors. */
  ghost predicate Printable(t: Token) {
    if Spelling(t.kind) != "" then t.lexeme == Spelling(t.kind)
    else if t.kind == IDENTIFIER then IsName(t.lexeme)
    else if t.kind == INTEGER_LITERAL then AllDigits(t.lexeme)
    else if t.kind == DECIMAL_LITERAL then IsDecimal(t.lexeme)
    else if t.kind == CHAR_LITERAL then |t.lexeme| == 1
    else t.kind == STRING_LITERAL
  }

  /** What may follow a printed token. */
  predicate Separated(rest: string) {
    rest == [] || rest[0] == ' '
  }

  // ---------------------------------------------------------- string literals

  /** The characters that make escapes after a backslash, with what they stand for. */
  const ESCAPES: seq<(char, char)> := [
    ('n', '\n'), ('t', '\t'), ('0', '\0'), ('r', '\r'), ('a', 7 as char), ('b', 8 as char),
    ('f', 12 as char), ('v', 11 as char), ('\\', '\\'), ('"', '"'), ('\'', '\'')]

  lemma EscapesExact(c: char, v: char)
    ensures (c, v) in ESCAPES <==> EscapeChar(c) == Some(v)
  {
  }

  /** An escape is read as the character it stands for; a backslash before anything else stands for itself. */
  lemma EscapeRead(c: char, rest: string)
    ensures forall v :: (c, v) in ESCAPES ==> Unquote(['\\', c] + rest) == Add(v, Unquote(rest))
    ensures (forall v :: (c, v) !in ESCAPES) ==> Unquote(['\\', c] + rest) == Add('\\', Unquote([c] + rest))
  {
    var s := ['\\', c] + rest;
    assert s[2..] == rest && s[1..] == [c] + rest;
    forall v ensures (c, v) in ESCAPES <==> EscapeChar(c) == Some(v) { EscapesExact(c, v); }
    hide EscapeChar;
  }

  /** In a character literal the same escapes are read. */
  lemma EscapedCharRead(c: char, v: char, rest: string)
    requires (c, v) in ESCAPES
    ensures LexOne(['\'', '\\', c, '\''] + rest) == Lexed(Token(CHAR_LITERAL, [v]), rest)
  {
    EscapesExact(c, v);
    var s := ['\'', '\\', c, '\''] + rest;
    hide EscapeChar, LexOne, LexChar;
    QuoteStarts(s);
    assert s[1..] == ['\\', c] + (['\''] + rest);
    CharQuoted(s, ['\\', c], rest);
  }

  /** `text` writes the characters of `s`, each as it is or by an escape of it. */
  ghost predicate Encodes(text: string, s: string)
    decreases |s|
  {
    if s == [] then text == []
    else
      || (text != [] && text[0] == s[0] && s[0] != '"' && s[0] != '\\' && Encodes(text[1..], s[1..]))
      || (|text| >= 2 && text[0] == '\\' && (text[1], s[0]) in ESCAPES && Encodes(text[2..], s[1..]))
  }

  /** However its characters are written, a quoted string is read as what it stands for. */
  lemma {:induction false} UnquoteEncoded(text: string, s: string, rest: string)
    requires Encodes(text, s)
    ensures Unquote(text + (['"'] + rest)) == Closed(s, rest)
    decreases |s|
  {
    var quoted := text + (['"'] + rest);
    if s == [] {
      assert quoted == ['"'] + rest;
      assert quoted[1..] == rest;
    } else if text[0] == s[0] && s[0] != '"' && s[0] != '\\' && Encodes(text[1..], s[1..]) {
      assert quoted[1..] == text[1..] + (['"'] + rest);
      UnquoteEncoded(text[1..], s[1..], rest);
      assert s == [s[0]] + s[1..];
    } else {
      EscapesExact(text[1], s[0]);
      assert quoted[2..] == text[2..] + (['"'] + rest);
      UnquoteEncoded(text[2..], s[1..], rest);
      assert s == [s[0]] + s[1..];
    }
  }

  /** Every string can be written. */
  lemma {:induction false} EscapeEncodes(s: string)
    ensures Encodes(Escape(s), s)
  {
    if s != [] {
      EscapeEncodes(s[1..]);
      var text := Escape(s);
      if NeedsEscape(s[0]) {
        assert text[2..] == Escape(s[1..]);
      } else {
        assert text[1..] == Escape(s[1..]);
      }
    }
  }

  /** For every string, lexing a quoted writing of it gives the string. */
  lemma StringLiteralReadsBack(text: string, s: string, rest: string)
    requires Encodes(text, s)
    ensures LexOne(['"'] + (text + (['"'] + rest))) == Lexed(Token(STRING_LITERAL, s), rest)
  {
    var whole := ['"'] + (text + (['"'] + rest));
    UnquoteEncoded(text, s, rest);
    assert whole[1..] == text + (['"'] + rest);
    NoTrivia(whole);
  }

  lemma NoTrivia(s: string)
    requires s != [] && !IsInsignificant(s[0]) && s[0] != '/'
    ensures SkipTrivia(s) == s
  {
  }

  // ------------------------------------------------------- numbers and names

  lemma {:induction false} DigitsOf(s: string, rest: string)
    requires forall i :: 0 <= i < |s| ==> IsDigit(s[i])
    requires rest == [] || !IsDigit(rest[0])
    ensures Digits(s + rest) == |s|
  {
    if s == [] {
      assert s + rest == rest;
    } else {
      assert (s + rest)[1..] == s[1..] + rest;
      DigitsOf(s[1..], rest);
    }
  }

  lemma {:induction false} NameLengthOf(s: string, rest: string)
    requires forall i :: 0 <= i < |s| ==> IsIdentifier(s[i])
    requires Separated(rest)
    ensures NameLength(s + rest) == |s|
  {
    if s == [] {
      assert s + rest == rest;
    } else {
      assert (s + rest)[1..] == s[1..] + rest;
      NameLengthOf(s[1..], rest);
    }
  }

  /** Where a digit comes first, the token is a number. */
  lemma DigitStarts(s: string)
    requires s != [] && IsDigit(s[0])
    ensures LexOne(s) == LexNumber(s)
  {
    hide LexNumber, LexName;
    NoTrivia(s);
  }

  lemma IntegerReadsBack(s: string, rest: string)
    requires AllDigits(s) && Separated(rest)
    ensures LexOne(s + rest) == Lexed(Token(INTEGER_LITERAL, s), rest)
  {
    hide Digits;
    var whole := s + rest;
    DigitStarts(whole);
    DigitsOf(s, rest);
    assert whole[..|s|] == s && whole[|s|..] == rest;
  }

  lemma DecimalReadsBack(s: string, rest: string)
    requires IsDecimal(s) && Separated(rest)
    ensures LexOne(s + rest) == Lexed(Token(DECIMAL_LITERAL, s), rest)
  {
    hide LexNumber, LexOne;
    var p :| 0 <= p < |s| && s[p] == '.' && AllDigits(s[..p]) && AllDigits(s[p + 1..]);
    DecimalParts(s, p, rest);
    DigitStarts(s + rest);
    DecimalLength(s, p, rest);
  }

  lemma DecimalParts(s: string, p: nat, rest: string)
    requires p < |s| && s[p] == '.' && AllDigits(s[..p]) && AllDigits(s[p + 1..]) && Separated(rest)
    ensures (s + rest)[0] == s[..p][0] && IsDigit((s + rest)[0])
    ensures Digits(s + rest) == p && Digits(s[p + 1..] + rest) == |s| - p - 1 > 0
    ensures (s + rest)[p..] == ['.'] + (s[p + 1..] + rest)
    ensures IsDigit((s[p + 1..] + rest)[0])
  {
    var front, fraction := s[..p], s[p + 1..] + rest;
    assert s + rest == front + (['.'] + fraction);
    DigitsOf(front, ['.'] + fraction);
    DigitsOf(s[p + 1..], rest);
  }

  lemma DecimalLength(s: string, p: nat, rest: string)
    requires p < |s| && s[p] == '.' && AllDigits(s[..p]) && AllDigits(s[p + 1..]) && Separated(rest)
    ensures (s + rest)[0] == s[..p][0]
    ensures LexNumber(s + rest) == Lexed(Token(DECIMAL_LITERAL, s), rest)
  {
    DecimalParts(s, p, rest);
    hide Digits, AllDigits, Separated;
    var fraction := s[p + 1..] + rest;
    assert fraction == (s + rest)[p..][1..];
    assert fraction[|s| - p - 1..] == rest;
    assert (s + rest)[..|s|] == s;
  }

  /** A name that is not an operator lexes as the name or the keyword it is. */
  lemma WordReadsBack(s: string, rest: string)
    requires s != [] && !IsDigit(s[0]) && (forall i :: 0 <= i < |s| ==> IsIdentifier(s[i])) && Separated(rest)
    ensures LexOne(s + rest) == Lexed(Token(KeywordKind(s), s), rest)
  {
    hide KeywordKind;
    var whole := s + rest;
    assert whole[0] == s[0] && IsIdentifier(s[0]);
    NoTrivia(whole);
    NameLengthOf(s, rest);
    assert whole[..|s|] == s && whole[|s|..] == rest;
  }

  lemma CharReadsBack(c: char, rest: string)
    ensures LexOne(Printed(Token(CHAR_LITERAL, [c])) + rest) == Lexed(Token(CHAR_LITERAL, [c]), rest)
  {
    PrintedChar(c);
    var whole := Printed(Token(CHAR_LITERAL, [c])) + rest;
    hide Printed, LexOne, LexChar;
    QuoteStarts(whole);
    var escaped := if NeedsEscape(c) then ['\\', c] else [c];
    assert whole[1..] == escaped + (['\''] + rest);
    CharQuoted(whole, escaped, rest);
  }

  lemma PrintedChar(c: char)
    ensures Printed(Token(CHAR_LITERAL, [c])) ==
      ['\''] + (if NeedsEscape(c) then ['\\', c] else [c]) + ['\'']
  {
    assert [c][1..] == [] && Escape([]) == [];
  }

  /** A character or an escape between quotes. */
  lemma CharQuoted(s: string, escaped: string, rest: string)
    requires s != [] && s[1..] == escaped + (['\''] + rest)
    requires (|escaped| == 2 && StartsEscape(escaped)) || (|escaped| == 1 && escaped[0] != '\\')
    ensures LexChar(s) ==
      Lexed(Token(CHAR_LITERAL, if |escaped| == 2 then [EscapeChar(escaped[1]).value] else escaped), rest)
  {
    hide EscapeChar;
    var t := s[1..];
    assert StartsEscape(t) <==> |escaped| == 2;
    assert t[|escaped|..] == ['\''] + rest && t[|escaped| + 1..] == rest && t[..|escaped|] == escaped;
  }

  lemma QuoteStarts(s: string)
    requires s != [] && s[0] == '\''
    ensures LexOne(s) == LexChar(s)
  {
    hide LexChar;
    NoTrivia(s);
  }

  // ------------------------------------------------------ operators, keywords

  /** Types of the fixed spellings made of letters. */
  predicate IsKeyword(k: TokenType) {
    Spelling(k) != "" && IsIdentifier(Spelling(k)[0])
  }

  /** Letters only, so read as one name. */
  predicate IsWord(s: string) {
    s != [] && !IsDigit(s[0]) && forall i :: 0 <= i < |s| ==> IsIdentifier(s[i])
  }

  predicate Recognised(k: TokenType) {
    KeywordKind(Spelling(k)) == k && IsWord(Spelling(k))
  }

  lemma BranchKeywordsFound()
    ensures Recognised(IF)
    ensures Recognised(ELSE)
  {
    hide Keyword3, Keyword5, Keyword6, Keyword7, Keyword8;
    assert Spelling(IF) == "if";
    assert Spelling(ELSE) == "else";
  }

  lemma MatchKeywordFound()
    ensures Recognised(MATCH)
  {
    hide Keyword2, Keyword3, Keyword4, Keyword6, Keyword7, Keyword8;
    assert Spelling(MATCH) == "match";
  }

  lemma LoopKeywordsFound()
    ensures Recognised(FOR)
    ensures Recognised(LOOP)
  {
    hide Keyword2, Keyword5, Keyword6, Keyword7, Keyword8;
    assert Spelling(FOR) == "for";
    assert Spelling(LOOP) == "loop";
  }

  lemma WhileKeywordFound()
    ensures Recognised(WHILE)
  {
    hide Keyword2, Keyword3, Keyword4, Keyword6, Keyword7, Keyword8;
    assert Spelling(WHILE) == "while";
  }

  lemma BreakKeywordFound()
    ensures Recognised(BREAK)
  {
    hide Keyword2, Keyword3, Keyword4, Keyword6, Keyword7, Keyword8;
    assert Spelling(BREAK) == "break";
  }

  lemma ContinueKeywordFound()
    ensures Recognised(CONTINUE)
  {
    hide Keyword2, Keyword3, Keyword4, Keyword5, Keyword6, Keyword7;
    assert Spelling(CONTINUE) == "continue";
  }

  lemma LogicKeywordsFound()
    ensures Recognised(AND)
    ensures Recognised(OR)
    ensures Recognised(IN)
  {
    hide Keyword4, Keyword5, Keyword6, Keyword7, Keyword8;
    assert Spelling(AND) == "and";
    assert Spelling(OR) == "or";
    assert Spelling(IN) == "in";
  }

  lemma ConstantKeywordsFound()
    ensures Recognised(TRUE)
    ensures Recognised(FALSE)
    ensures Recognised(NIL)
  {
    hide Keyword2, Keyword6, Keyword7, Keyword8;
    assert Spelling(TRUE) == "true";
    assert Spelling(FALSE) == "false";
    assert Spelling(NIL) == "nil";
  }

  lemma AggregateKeywordsFound()
    ensures Recognised(STRUCT)
    ensures Recognised(UNION)
    ensures Recognised(ENUM)
  {
    hide Keyword2, Keyword3, Keyword7, Keyword8;
    assert Spelling(STRUCT) == "struct";
    assert Spelling(UNION) == "union";
    assert Spelling(ENUM) == "enum";
  }

  lemma InterfaceKeywordsFound()
    ensures Recognised(TRAIT)
    ensures Recognised(IMPL)
  {
    hide Keyword2, Keyword3, Keyword6, Keyword7, Keyword8;
    assert Spelling(TRAIT) == "trait";
    assert Spelling(IMPL) == "impl";
  }

  lemma VariableKeywordsFound()
    ensures Recognised(VAR)
    ensures Recognised(LET)
    ensures Recognised(IMUT)
  {
    hide Keyword2, Keyword5, Keyword6, Keyword7, Keyword8;
    assert Spelling(VAR) == "var";
    assert Spelling(LET) == "let";
    assert Spelling(IMUT) == "imut";
  }

  lemma QualifierKeywordsFound()
    ensures Recognised(CONST)
    ensures Recognised(INOUT)
  {
    hide Keyword2, Keyword3, Keyword4, Keyword6, Keyword7, Keyword8;
    assert Spelling(CONST) == "const";
    assert Spelling(INOUT) == "inout";
  }

  lemma VolatileKeywordFound()
    ensures Recognised(VOLATILE)
  {
    hide Keyword2, Keyword3, Keyword4, Keyword5, Keyword6, Keyword7;
    assert Spelling(VOLATILE) == "volatile";
  }

  lemma LinkageKeywordsFound()
    ensures Recognised(EXTERN)
    ensures Recognised(STATIC)
  {
    hide Keyword2, Keyword3, Keyword4, Keyword5, Keyword7, Keyword8;
    assert Spelling(EXTERN) == "extern";
    assert Spelling(STATIC) == "static";
  }

  lemma ModuleKeywordsFound()
    ensures Recognised(IMPORT)
    ensures Recognised(PRIVATE)
  {
    hide Keyword2, Keyword3, Keyword4, Keyword5, Keyword8;
    assert Spelling(IMPORT) == "import";
    assert Spelling(PRIVATE) == "private";
  }

  lemma FunctionKeywordsFound()
    ensures Recognised(FN)
    ensures Recognised(RETURN)
  {
    hide Keyword3, Keyword4, Keyword5, Keyword7, Keyword8;
    assert Spelling(FN) == "fn";
    assert Spelling(RETURN) == "return";
  }

  lemma AsyncKeywordsFound()
    ensures Recognised(ASYNC)
    ensures Recognised(AWAIT)
  {
    hide Keyword2, Keyword3, Keyword4, Keyword6, Keyword7, Keyword8;
    assert Spelling(ASYNC) == "async";
    assert Spelling(AWAIT) == "await";
  }

  lemma SizeKeywordsFound()
    ensures Recognised(SIZEOF)
    ensures Recognised(ALIGN_OF)
  {
    hide Keyword2, Keyword3, Keyword4, Keyword5, Keyword8;
    assert Spelling(SIZEOF) == "sizeof";
    assert Spelling(ALIGN_OF) == "alignof";
  }

  lemma NameofKeywordFound()
    ensures Recognised(NAMEOF)
  {
    hide Keyword2, Keyword3, Keyword4, Keyword5, Keyword7, Keyword8;
    assert Spelling(NAMEOF) == "nameof";
  }

  lemma AliasKeywordFound()
    ensures Recognised(ALIAS)
  {
    hide Keyword2, Keyword3, Keyword4, Keyword6, Keyword7, Keyword8;
    assert Spelling(ALIAS) == "alias";
  }

  lemma ConversionKeywordsFound()
    ensures Recognised(CAST)
    ensures Recognised(DISTINCT)
  {
    hide Keyword2, Keyword3, Keyword5, Keyword6, Keyword7;
    assert Spelling(CAST) == "cast";
    assert Spelling(DISTINCT) == "distinct";
  }

  lemma FailureKeywordsFound()
    ensures Recognised(ERROR)
  {
    hide Keyword2, Keyword3, Keyword4, Keyword6, Keyword7, Keyword8;
    assert Spelling(ERROR) == "error";
  }

  lemma KeywordFound(k: TokenType)
    requires IsKeyword(k)
    ensures Recognised(k)
  {
    hide Recognised;
    BranchKeywordsFound();
    LoopKeywordsFound();
    WhileKeywordFound();
    BreakKeywordFound();
    MatchKeywordFound();
    ContinueKeywordFound();
    LogicKeywordsFound();
    ConstantKeywordsFound();
    AggregateKeywordsFound();
    InterfaceKeywordsFound();
    VariableKeywordsFound();
    QualifierKeywordsFound();
    VolatileKeywordFound();
    LinkageKeywordsFound();
    ModuleKeywordsFound();
    FunctionKeywordsFound();
    AsyncKeywordsFound();
    SizeKeywordsFound();
    NameofKeywordFound();
    AliasKeywordFound();
    ConversionKeywordsFound();
    FailureKeywordsFound();
  }

  /** The operator is read whole, and the text does not start with trivia. */
  predicate ReadAs(k: TokenType, rest: string) {
    var s := Spelling(k);
    && s != ""
    && Operator(s + rest) == (k, |s|)
    && !IsInsignificant(s[0]) && s[0] != '\0' && !StartsComment(s + rest)
  }

  lemma SumOperatorsFound(rest: string)
    requires Separated(rest)
    ensures ReadAs(PLUS, rest)
    ensures ReadAs(MINUS, rest)
    ensures ReadAs(PERCENT, rest)
  {
  }

  lemma ProductOperatorsFound(rest: string)
    requires Separated(rest)
    ensures ReadAs(STAR, rest)
    ensures ReadAs(STAR_STAR, rest)
    ensures ReadAs(FORWARD_SLASH, rest)
  {
  }

  lemma OrderOperatorsFound(rest: string)
    requires Separated(rest)
    ensures ReadAs(LESS, rest)
    ensures ReadAs(LESS_EQUAL, rest)
    ensures ReadAs(GREATER, rest)
    ensures ReadAs(GREATER_EQUAL, rest)
  {
  }

  lemma EqualityOperatorsFound(rest: string)
    requires Separated(rest)
    ensures ReadAs(EQUAL_EQUAL, rest)
    ensures ReadAs(BANG_EQUAL, rest)
    ensures ReadAs(BANG, rest)
    ensures ReadAs(ARROW, rest)
  {
  }

  lemma AssignmentOperatorsFound(rest: string)
    requires Separated(rest)
    ensures ReadAs(EQUAL, rest)
    ensures ReadAs(PLUS_EQUAL, rest)
    ensures ReadAs(MINUS_EQUAL, rest)
    ensures ReadAs(STAR_EQUAL, rest)
    ensures ReadAs(SLASH_EQUAL, rest)
  {
  }

  lemma StepOperatorsFound(rest: string)
    requires Separated(rest)
    ensures ReadAs(PLUS_PLUS, rest)
    ensures ReadAs(MINUS_MINUS, rest)
  {
  }

  lemma DotOperatorsFound(rest: string)
    requires Separated(rest)
    ensures ReadAs(DOT, rest)
    ensures ReadAs(DOT_DOT, rest)
    ensures ReadAs(DOT_DOT_EQUAL, rest)
    ensures ReadAs(ELLIPSE, rest)
  {
  }

  lemma BracketOperatorsFound(rest: string)
    requires Separated(rest)
    ensures ReadAs(LEFT_PAREN, rest)
    ensures ReadAs(RIGHT_PAREN, rest)
    ensures ReadAs(LEFT_BRACKET, rest)
    ensures ReadAs(RIGHT_BRACKET, rest)
  {
  }

  lemma BraceOperatorsFound(rest: string)
    requires Separated(rest)
    ensures ReadAs(LEFT_BRACE, rest)
    ensures ReadAs(RIGHT_BRACE, rest)
  {
  }

  lemma SeparatorOperatorsFound(rest: string)
    requires Separated(rest)
    ensures ReadAs(COLON, rest)
    ensures ReadAs(COLON_COLON, rest)
    ensures ReadAs(SEMI_COLON, rest)
    ensures ReadAs(COMMA, rest)
  {
  }

  lemma BitOperatorsFound(rest: string)
    requires Separated(rest)
    ensures ReadAs(TILDE, rest)
    ensures ReadAs(CARET, rest)
    ensures ReadAs(AMPERSAND, rest)
    ensures ReadAs(PIPE, rest)
  {
  }

  lemma SignOperatorsFound(rest: string)
    requires Separated(rest)
    ensures ReadAs(AT, rest)
    ensures ReadAs(DOLLAR, rest)
    ensures ReadAs(HASH, rest)
    ensures ReadAs(QUESTION, rest)
  {
  }

  lemma OperatorKinds(k: TokenType)
    requires Spelling(k) != "" && !IsKeyword(k)
    ensures COLON <= k <= ARROW && k != AND && k != OR
  {
  }

  lemma OperatorFound(k: TokenType, rest: string)
    requires Spelling(k) != "" && !IsKeyword(k) && Separated(rest)
    ensures ReadAs(k, rest)
  {
    hide ReadAs, Spelling, IsKeyword;
    OperatorKinds(k);
    if k < LEFT_PAREN {
      CalculationFound(k, rest);
    } else {
      PunctuationFound(k, rest);
    }
  }

  lemma CalculationFound(k: TokenType, rest: string)
    requires COLON <= k < LEFT_PAREN && k != AND && k != OR && Separated(rest)
    ensures ReadAs(k, rest)
  {
    hide ReadAs, Separated;
    SumOperatorsFound(rest);
    ProductOperatorsFound(rest);
    OrderOperatorsFound(rest);
    EqualityOperatorsFound(rest);
    AssignmentOperatorsFound(rest);
    StepOperatorsFound(rest);
    DotOperatorsFound(rest);
    SeparatorOperatorsFound(rest);
    BitOperatorsFound(rest);
    SignOperatorsFound(rest);
  }

  lemma PunctuationFound(k: TokenType, rest: string)
    requires LEFT_PAREN <= k <= ARROW && Separated(rest)
    ensures ReadAs(k, rest)
  {
    hide ReadAs, Separated;
    EqualityOperatorsFound(rest);
    DotOperatorsFound(rest);
    BracketOperatorsFound(rest);
    BraceOperatorsFound(rest);
    SeparatorOperatorsFound(rest);
    BitOperatorsFound(rest);
    SignOperatorsFound(rest);
  }

  lemma FixedReadsBack(k: TokenType, rest: string)
    requires Spelling(k) != "" && Separated(rest)
    ensures LexOne(Spelling(k) + rest) == Lexed(Fixed(k), rest)
  {
    hide Spelling, KeywordKind, Operator;
    var s := Spelling(k);
    if IsKeyword(k) {
      KeywordFound(k);
      WordReadsBack(s, rest);
    } else {
      OperatorFound(k, rest);
      var whole := s + rest;
      assert SkipBlank(whole) == whole;
      assert SkipTrivia(whole) == whole;
      assert whole[..|s|] == s && whole[|s|..] == rest;
    }
  }

  // ---------------------------------------------------------------- round trip

  /** A printed token is lexed back, with what follows it left over. */
  lemma TokenReadsBack(t: Token, rest: string)
    requires Printable(t) && Separated(rest)
    ensures LexOne(Printed(t) + rest) == Lexed(t, rest)
  {
    LiteralsUnspelled();
    hide Spelling, LexOne, KeywordKind;
    if Spelling(t.kind) != "" {
      FixedReadsBack(t.kind, rest);
    } else if t.kind == IDENTIFIER {
      WordReadsBack(t.lexeme, rest);
    } else if t.kind == INTEGER_LITERAL {
      IntegerReadsBack(t.lexeme, rest);
    } else if t.kind == DECIMAL_LITERAL {
      DecimalReadsBack(t.lexeme, rest);
    } else if t.kind == CHAR_LITERAL {
      assert t.lexeme == [t.lexeme[0]];
      CharReadsBack(t.lexeme[0], rest);
    } else {
      EscapeEncodes(t.lexeme);
      StringLiteralReadsBack(Escape(t.lexeme), t.lexeme, rest);
      assert Printed(t) + rest == ['"'] + (Escape(t.lexeme) + (['"'] + rest));
    }
  }

  lemma LiteralsUnspelled()
    ensures Spelling(STRING_LITERAL) == "" && Spelling(CHAR_LITERAL) == ""
  {
  }

  lemma BlankSkipped(s: string)
    ensures LexOne([' '] + s) == LexOne(s)
  {
  }

  lemma {:induction false} LexManyFront(s: string, n: nat)
    requires n > 0 && LexOne(s).Lexed?
    ensures var rest := LexMany(LexOne(s).rest, n - 1);
            LexMany(s, n) == if rest.None? then None else Some(([LexOne(s).token] + rest.value.0, rest.value.1))
  {
    hide LexOne;
    if n == 1 {
      assert LexMany(s, 0) == Some(([], s));
      assert [] + [LexOne(s).token] == [LexOne(s).token] + [];
    } else {
      LexManyFront(s, n - 1);
      var front := LexMany(LexOne(s).rest, n - 2);
      if front.Some? {
        var l := LexOne(front.value.1);
        if l.Lexed? {
          assert ([LexOne(s).token] + front.value.0) + [l.token] == [LexOne(s).token] + (front.value.0 + [l.token]);
        }
      }
    }
  }

  /** Lexing as many tokens as were printed gives them back and leaves nothing. */
  lemma {:induction false} TokensReadBack(ts: seq<Token>)
    requires forall t :: t in ts ==> Printable(t)
    ensures LexMany(PrintAll(ts), |ts|) == Some((ts, ""))
  {
    hide LexOne, Printable, Printed;
    if ts != [] {
      var rest := if |ts| == 1 then "" else [' '] + PrintAll(ts[1..]);
      assert PrintAll(ts) == Printed(ts[0]) + rest;
      TokenReadsBack(ts[0], rest);
      LexManyFront(PrintAll(ts), |ts|);
      if |ts| == 1 {
        assert ts == [ts[0]] + [];
      } else {
        TokensReadBack(ts[1..]);
        BlankSkipped(PrintAll(ts[1..]));
        LexManyBlank(PrintAll(ts[1..]), |ts| - 1);
        assert ts == [ts[0]] + ts[1..];
      }
    }
  }

  lemma LexManyBlank(s: string, n: nat)
    requires n > 0 && LexMany(s, n).Some?
    ensures LexMany([' '] + s, n) == LexMany(s, n)
  {
    hide LexOne;
    BlankSkipped(s);
    LexManyStarts(s, n);
    LexManyFront(s, n);
    LexManyFront([' '] + s, n);
  }

  lemma {:induction false} LexManyStarts(s: string, n: nat)
    requires n > 0 && LexMany(s, n).Some?
    ensures LexOne(s).Lexed?
  {
    hide LexOne;
    if n > 1 { LexManyStarts(s, n - 1); }
  }

  // ----------------------------------------------------- beyond the last token

  /** The tokens of a printed text are those printed, and then the end for ever. */
  lemma PrintedTokens(ts: seq<Token>, i: nat)
    requires forall t :: t in ts ==> Printable(t)
    ensures LexMany(PrintAll(ts), i).Some?
    ensures TokenAt(PrintAll(ts), i) == if i < |ts| then ts[i] else Token(EOF, "")
  {
    hide LexOne, Printable, PrintAll, LexMany;
    var s := PrintAll(ts);
    TokensReadBack(ts);
    if i < |ts| {
      LexManyPrefix(s, i, |ts|);
      LexManyPrefix(s, i + 1, |ts|);
    } else {
      OnlyEnds(s, |ts|, i);
      OnlyEnds(s, |ts|, i + 1);
    }
  }

  lemma {:induction false} OnlyEnds(s: string, n: nat, i: nat)
    requires n <= i && LexMany(s, n).Some? && LexMany(s, n).value.1 == ""
    ensures LexMany(s, i).Some? && LexMany(s, i).value.1 == ""
    ensures forall k :: n <= k < i ==> LexMany(s, i).value.0[k] == Token(EOF, "")
  {
    EndLexed();
    hide LexOne;
    if n < i { OnlyEnds(s, n, i - 1); }
  }

  lemma EndLexed()
    ensures LexOne("") == Lexed(Token(EOF, ""), "")
  {
  }
}
