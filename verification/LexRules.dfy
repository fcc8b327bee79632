/**
 What a text lexes as, character by character: the blanks, comments, names, numbers and unknown
 characters of the language, written out.
 */
module LexRules {
  import opened Tokens
  import opened Lexing
  import opened LexRoundTrip
  import opened LexedTokens

  // ----------------------------------------------------------------- classes

  const BLANKS: string := " \t\r\n"

  const MARKS: string := "+-=*/<>!:.%$&|(){}#@~,;?^[]"

  predicate IsLetter(c: char) { 'a' <= c <= 'z' || 'A' <= c <= 'Z' || c == '_' }

  predicate IsDecimalDigit(c: char) { c in "0123456789" }

  /** These are the lexer's classes. */
  lemma CharacterClasses()
    ensures forall c :: IsDigit(c) <==> IsDecimalDigit(c)
    ensures forall c :: IsIdentifier(c) <==> IsLetter(c) || IsDecimalDigit(c)
  {
  }

  // ----------------------------------------------------------- fixed tokens

  /** The keywords of up to four letters. */
  const SHORT_KEYWORDS: seq<(string, TokenType)> := [
    ("or", OR), ("fn", FN), ("in", IN), ("if", IF), ("and", AND), ("var", VAR), ("let", LET), ("for", FOR),
    ("nil", NIL), ("true", TRUE), ("else", ELSE), ("imut", IMUT), ("enum", ENUM), ("loop", LOOP),
    ("cast", CAST), ("impl", IMPL)]

  /** Those of five letters. */
  const KEYWORDS_OF_FIVE: seq<(string, TokenType)> := [
    ("false", FALSE), ("const", CONST), ("inout", INOUT), ("alias", ALIAS), ("error", ERROR),
    ("async", ASYNC), ("await", AWAIT), ("while", WHILE), ("match", MATCH), ("break", BREAK),
    ("trait", TRAIT), ("union", UNION)]

  /** Those of six letters and more. */
  const LONG_KEYWORDS: seq<(string, TokenType)> := [
    ("return", RETURN), ("import", IMPORT), ("extern", EXTERN), ("static", STATIC), ("sizeof", SIZEOF),
    ("nameof", NAMEOF), ("struct", STRUCT), ("private", PRIVATE), ("alignof", ALIGN_OF),
    ("volatile", VOLATILE), ("distinct", DISTINCT), ("continue", CONTINUE)]

  /** The operators of one character. */
  const OPERATORS: seq<(string, TokenType)> := [
    (">", GREATER), ("<", LESS), ("-", MINUS), ("+", PLUS), ("/", FORWARD_SLASH), ("*", STAR), ("%", PERCENT),
    ("^", CARET), ("!", BANG), ("=", EQUAL), ("&", AMPERSAND), ("|", PIPE)]

  /** The punctuation. */
  const PUNCTUATION: seq<(string, TokenType)> := [
    (":", COLON), ("?", QUESTION), ("~", TILDE), ("@", AT), ("(", LEFT_PAREN), (")", RIGHT_PAREN),
    ("{", LEFT_BRACE), ("}", RIGHT_BRACE), ("[", LEFT_BRACKET), ("]", RIGHT_BRACKET), (",", COMMA),
    ("$", DOLLAR), ("#", HASH), (".", DOT), (";", SEMI_COLON)]

  /** The operators and punctuation of two and three characters. */
  const LONGER_MARKS: seq<(string, TokenType)> := [
    ("::", COLON_COLON), (">=", GREATER_EQUAL), ("<=", LESS_EQUAL), ("!=", BANG_EQUAL), ("==", EQUAL_EQUAL),
    ("**", STAR_STAR), ("..", DOT_DOT), ("..=", DOT_DOT_EQUAL), ("+=", PLUS_EQUAL), ("-=", MINUS_EQUAL),
    ("*=", STAR_EQUAL), ("/=", SLASH_EQUAL), ("++", PLUS_PLUS), ("--", MINUS_MINUS), ("...", ELLIPSE),
    ("=>", ARROW)]

  lemma ShortKeywordsSpelled(text: string, kind: TokenType)
    requires (text, kind) in SHORT_KEYWORDS
    ensures Spelling(kind) == text != [] && IsLetter(text[0])
  {
  }

  lemma KeywordsOfFiveSpelled(text: string, kind: TokenType)
    requires (text, kind) in KEYWORDS_OF_FIVE
    ensures Spelling(kind) == text != [] && IsLetter(text[0])
  {
  }

  lemma LongKeywordsSpelled(text: string, kind: TokenType)
    requires (text, kind) in LONG_KEYWORDS
    ensures Spelling(kind) == text != [] && IsLetter(text[0])
  {
  }

  lemma OperatorsSpelled(text: string, kind: TokenType)
    requires (text, kind) in OPERATORS
    ensures Spelling(kind) == text != []
  {
  }

  lemma PunctuationSpelled(text: string, kind: TokenType)
    requires (text, kind) in PUNCTUATION
    ensures Spelling(kind) == text != []
  {
  }

  lemma LongerMarksSpelled(text: string, kind: TokenType)
    requires (text, kind) in LONGER_MARKS
    ensures Spelling(kind) == text != []
  {
  }

  predicate IsKeywordText(text: string, kind: TokenType) {
    (text, kind) in SHORT_KEYWORDS || (text, kind) in KEYWORDS_OF_FIVE || (text, kind) in LONG_KEYWORDS
  }

  predicate IsMarkText(text: string, kind: TokenType) {
    (text, kind) in OPERATORS || (text, kind) in PUNCTUATION || (text, kind) in LONGER_MARKS
  }

  lemma KeywordTextSpelled(text: string, kind: TokenType)
    requires IsKeywordText(text, kind)
    ensures Spelling(kind) == text != [] && IsLetter(text[0])
  {
    hide Spelling, IsLetter;
    if (text, kind) in SHORT_KEYWORDS {
      ShortKeywordsSpelled(text, kind);
    } else if (text, kind) in KEYWORDS_OF_FIVE {
      KeywordsOfFiveSpelled(text, kind);
    } else {
      LongKeywordsSpelled(text, kind);
    }
  }

  lemma MarkTextSpelled(text: string, kind: TokenType)
    requires IsMarkText(text, kind)
    ensures Spelling(kind) == text != []
  {
    hide Spelling;
    if (text, kind) in OPERATORS {
      OperatorsSpelled(text, kind);
    } else if (text, kind) in PUNCTUATION {
      PunctuationSpelled(text, kind);
    } else {
      LongerMarksSpelled(text, kind);
    }
  }

  /** Before a blank or the end, every keyword and mark is the token the tables say. */
  lemma FixedLexes(text: string, kind: TokenType, rest: string)
    requires (IsKeywordText(text, kind) || IsMarkText(text, kind)) && Separated(rest)
    ensures LexOne(text + rest) == Lexed(Token(kind, text), rest)
  {
    hide IsKeywordText, IsMarkText, Spelling, LexOne;
    if IsKeywordText(text, kind) {
      KeywordTextSpelled(text, kind);
    } else {
      MarkTextSpelled(text, kind);
    }
    FixedReadsBack(kind, rest);
  }

  /** A name is a keyword exactly where the tables say. */
  lemma KeywordIff(text: string, kind: TokenType)
    requires kind != IDENTIFIER
    ensures KeywordKind(text) == kind <==> IsKeywordText(text, kind)
  {
    hide IsKeywordText, Spelling;
    if IsKeywordText(text, kind) {
      KeywordTextSpelled(text, kind);
      hide KeywordKind;
      KeywordFound(kind);
    }
    if KeywordKind(text) == kind {
      if |text| <= 4 {
        ShortInTable(text);
      } else if |text| == 5 {
        FiveInTable(text);
      } else {
        LongInTable(text);
      }
    }
  }

  lemma ShortInTable(text: string)
    requires |text| <= 4 && KeywordKind(text) != IDENTIFIER
    ensures IsKeywordText(text, KeywordKind(text))
  {
  }

  lemma FiveInTable(text: string)
    requires |text| == 5 && KeywordKind(text) != IDENTIFIER
    ensures IsKeywordText(text, KeywordKind(text))
  {
  }

  lemma LongInTable(text: string)
    requires |text| > 5 && KeywordKind(text) != IDENTIFIER
    ensures IsKeywordText(text, KeywordKind(text))
  {
  }

  // ------------------------------------------------------------------ trivia

  /** Blanks before a token change nothing. */
  lemma BlankIgnored(b: char, s: string)
    requires b in BLANKS
    ensures SkipTrivia([b] + s) == SkipTrivia(s) && LexOne([b] + s) == LexOne(s)
  {
    assert ([b] + s)[1..] == s;
  }

  /** Neither does a comment, which ends with its line. */
  lemma CommentIgnored(comment: string, s: string)
    requires '\n' !in comment
    ensures SkipTrivia("//" + comment + "\n" + s) == SkipTrivia(s)
    ensures LexOne("//" + comment + "\n" + s) == LexOne(s)
  {
    var text := "//" + comment + "\n" + s;
    assert text == ("//" + comment) + (['\n'] + s);
    LineSkipped("//" + comment, s);
    assert SkipBlank(text) == text;
    BlankIgnored('\n', s);
    hide SkipTrivia;
  }

  lemma {:induction false} LineSkipped(line: string, s: string)
    requires '\n' !in line
    ensures SkipLine(line + (['\n'] + s)) == ['\n'] + s
  {
    var text := line + (['\n'] + s);
    if line == "" {
      assert text == ['\n'] + s;
    } else {
      assert text[1..] == line[1..] + (['\n'] + s);
      LineSkipped(line[1..], s);
    }
  }

  /** A comment may also end with the text. */
  lemma LastCommentIgnored(comment: string)
    requires '\n' !in comment
    ensures LexOne("//" + comment) == Lexed(Token(EOF, ""), "")
  {
    var text := "//" + comment;
    LastLineSkipped(text);
    assert SkipBlank(text) == text;
    assert SkipTrivia("") == "";
  }

  lemma {:induction false} LastLineSkipped(line: string)
    requires '\n' !in line
    ensures SkipLine(line) == ""
  {
    if line != "" { LastLineSkipped(line[1..]); }
  }

  // ------------------------------------------------------- names and numbers

  /** A name is made of letters, digits and underscores, and ends before anything else. */
  lemma NameLexes(w: string, rest: string)
    requires w != "" && !IsDecimalDigit(w[0]) && forall i :: 0 <= i < |w| ==> IsLetter(w[i]) || IsDecimalDigit(w[i])
    requires rest == "" || !(IsLetter(rest[0]) || IsDecimalDigit(rest[0]))
    ensures LexOne(w + rest) == Lexed(Token(KeywordKind(w), w), rest)
  {
    var whole := w + rest;
    assert whole[0] == w[0];
    NameStarts(whole);
    WordLength(w, rest);
    hide KeywordKind, LexOne;
    assert whole[..|w|] == w && whole[|w|..] == rest;
  }

  lemma NameStarts(s: string)
    requires s != "" && IsLetter(s[0])
    ensures LexOne(s) == LexName(s)
  {
    NoTrivia(s);
    hide LexName;
  }

  lemma WordLength(w: string, rest: string)
    requires forall i :: 0 <= i < |w| ==> IsLetter(w[i]) || IsDecimalDigit(w[i])
    requires rest == "" || !(IsLetter(rest[0]) || IsDecimalDigit(rest[0]))
    ensures NameLength(w + rest) == |w|
  {
    CharacterClasses();
    hide IsLetter, IsDecimalDigit, IsIdentifier, NameLength;
    var whole := w + rest;
    forall i | 0 <= i < |w| ensures IsIdentifier(whole[i]) { assert whole[i] == w[i]; }
    if rest != "" { assert whole[|w|] == rest[0]; }
    NameLengthIsAll(whole, |w|);
  }

  predicate IsNumeral(n: string) {
    n != "" && forall i :: 0 <= i < |n| ==> IsDecimalDigit(n[i])
  }

  predicate NoDigitFirst(s: string) {
    s == "" || !IsDecimalDigit(s[0])
  }

  lemma NumeralDigits(n: string, rest: string)
    requires (forall i :: 0 <= i < |n| ==> IsDecimalDigit(n[i])) && NoDigitFirst(rest)
    ensures Digits(n + rest) == |n|
  {
    CharacterClasses();
    hide IsDecimalDigit, IsDigit, Digits;
    DigitsOf(n, rest);
  }

  /** Digits are an integer unless a point follows, and even then if the point starts a range. */
  lemma IntegerLexes(n: string, rest: string)
    requires IsNumeral(n) && NoDigitFirst(rest) && (First(rest) == '.' ==> Second(rest) == '.')
    ensures LexOne(n + rest) == Lexed(Token(INTEGER_LITERAL, n), rest)
  {
    hide Digits, LexOne;
    NumeralDigits(n, rest);
    NumberStarts(n, rest);
  }

  lemma NumberStarts(n: string, rest: string)
    requires IsNumeral(n)
    ensures LexOne(n + rest) == LexNumber(n + rest)
    ensures (n + rest)[..|n|] == n && (n + rest)[|n|..] == rest
  {
    hide LexNumber;
    assert (n + rest)[0] == n[0];
    DigitStarts(n + rest);
  }

  /** Digits, a point and digits are a decimal. */
  lemma DecimalLexes(n: string, m: string, rest: string)
    requires IsNumeral(n) && IsNumeral(m) && NoDigitFirst(rest)
    ensures LexOne(n + ("." + (m + rest))) == Lexed(Token(DECIMAL_LITERAL, n + "." + m), rest)
  {
    hide Digits, LexOne;
    var tail := "." + (m + rest);
    NumeralDigits(n, tail);
    NumeralDigits(m, rest);
    NumberStarts(n, tail);
    assert tail[1..] == m + rest;
    assert (m + rest)[0] == m[0] && (m + rest)[|m|..] == rest;
    assert (n + tail)[..|n| + 1 + |m|] == n + "." + m;
  }

  /** A point with neither a digit nor another point after it is an error, which takes the point. */
  lemma PointIsError(n: string, rest: string)
    requires IsNumeral(n) && NoDigitFirst(rest) && First(rest) != '.'
    ensures LexOne(n + ("." + rest)) == Lexed(Token(ERROR, "expected digit after '.'"), rest)
  {
    hide LexOne;
    var tail := "." + rest;
    NumeralDigits(n, tail);
    NumeralDigits("", rest);
    assert "" + rest == rest;
    NumberStarts(n, tail);
    assert tail[1..] == rest;
    hide Digits;
  }

  // ------------------------------------------------------- literals and the end

  /** A string that is not closed is an error, which takes the rest of the text. */
  lemma OpenStringIsError(s: string)
    requires '"' !in s
    ensures LexOne("\"" + s) == Lexed(Token(ERROR, "unclosed string found"), "")
  {
    var text := "\"" + s;
    assert text[1..] == s;
    NeverClosed(s);
    NoTrivia(text);
    hide Unquote;
  }

  lemma {:induction false} NeverClosed(s: string)
    requires '"' !in s
    ensures Unquote(s) == Unclosed
    decreases |s|
  {
    if s != "" {
      NeverClosed(s[1..]);
      if StartsEscape(s) { NeverClosed(s[2..]); }
    }
  }

  /** A quote and one character, not closed after it, are an error. */
  lemma OpenCharIsError(c: char, rest: string)
    requires c != '\\' && First(rest) != '\''
    ensures LexOne(['\'', c] + rest) == Lexed(Token(ERROR, "unclosed or empty char found"), rest)
  {
    var text := ['\'', c] + rest;
    assert text[1..] == [c] + rest && ([c] + rest)[1..] == rest;
    hide LexOne;
    QuoteStarts(text);
  }

  /** A null character is an end in the middle of the text. */
  lemma NullIsEnd(s: string)
    ensures LexOne("\0" + s) == Lexed(Token(EOF, "\0"), s)
  {
    var text := "\0" + s;
    assert text[1..] == s;
    NoTrivia(text);
  }

  // ------------------------------------------------------- unknown characters

  /** A character that starts a token or is passed over. */
  predicate IsKnown(c: char) {
    IsLetter(c) || IsDecimalDigit(c) || c in MARKS || c in BLANKS || c == '"' || c == '\'' || c == '\0'
  }

  /** A character that is not passed over is an error exactly if it is not known. */
  lemma UnknownIff(c: char, s: string)
    requires c !in BLANKS && !(c == '/' && First(s) == '/')
    ensures LexOne([c] + s) == Unknown <==> !IsKnown(c)
  {
    var text := [c] + s;
    assert text[1..] == s && SkipTrivia(text) == text;
    MarksStart(text);
    hide Operator, LexString, LexChar, LexNumber, LexName;
  }

  lemma MarksStart(s: string)
    requires s != ""
    ensures Operator(s).1 > 0 <==> s[0] in MARKS
  {
    OperatorIffStarts(s);
    MarksAre(s[0]);
    hide Operator, StartsOperator;
  }

  lemma OperatorIffStarts(s: string)
    requires s != ""
    ensures Operator(s).1 > 0 <==> StartsOperator(s[0])
  {
  }

  lemma MarksAre(c: char)
    ensures c in MARKS <==> StartsOperator(c)
  {
  }
}
