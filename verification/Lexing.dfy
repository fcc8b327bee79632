/**
 Lexing as functions on the text that remains: trivia, operators, numbers, names, and string
 and character literals with their escapes.
 */
module Lexing {
  import opened Options
  import opened Tokens

  /** One token and what is left, or the error of a character that starts no token. */
  datatype Lexed = Lexed(token: Token, rest: string) | Unknown

  // -------------------------------------------------------------- characters

  /** The next character, or a null character at the end. */
  function First(s: string): char {
    if s == [] then '\0' else s[0]
  }

  function Second(s: string): char {
    if |s| < 2 then '\0' else s[1]
  }

  predicate IsBlank(c: char) { c == ' ' || c == '\t' }

  predicate IsInsignificant(c: char) { IsBlank(c) || c == '\r' || c == '\n' }

  predicate IsDigit(c: char) { '0' <= c <= '9' }

  predicate IsIdentifier(c: char) {
    IsDigit(c) || 'a' <= c <= 'z' || 'A' <= c <= 'Z' || c == '_'
  }

  // ------------------------------------------------------------------ trivia

  function SkipBlank(s: string): (r: string)
    ensures |r| <= |s|
    ensures !IsInsignificant(First(r))
  {
    if s != [] && IsInsignificant(s[0]) then SkipBlank(s[1..]) else s
  }

  function SkipLine(s: string): (r: string)
    ensures |r| <= |s|
  {
    if s != [] && s[0] != '\n' then SkipLine(s[1..]) else s
  }

  predicate StartsComment(s: string) { First(s) == '/' && Second(s) == '/' }

  /** Drops blanks and line comments. */
  function SkipTrivia(s: string): (r: string)
    ensures |r| <= |s|
    decreases |s|
  {
    var t := SkipBlank(s);
    if StartsComment(t) then
      assert SkipLine(t) == SkipLine(t[1..]);
      SkipTrivia(SkipLine(t))
    else t
  }

  // --------------------------------------------------------------- operators

  /** The longest operator the text starts with; length 0 if it starts with none. */
  function Operator(s: string): (r: (TokenType, nat))
    ensures r.1 <= |s|
  {
    if s == [] then (EOF, 0) else
    var c, d, n := s[0], Second(s), if |s| >= 2 then 2 else 1;
    if c == '+' then (if d == '+' then (PLUS_PLUS, n) else if d == '=' then (PLUS_EQUAL, n) else (PLUS, 1))
    else if c == '-' then (if d == '-' then (MINUS_MINUS, n) else if d == '=' then (MINUS_EQUAL, n) else (MINUS, 1))
    else if c == '=' then (if d == '=' then (EQUAL_EQUAL, n) else if d == '>' then (ARROW, n) else (EQUAL, 1))
    else if c == '*' then (if d == '*' then (STAR_STAR, n) else if d == '=' then (STAR_EQUAL, n) else (STAR, 1))
    else if c == '/' then (if d == '=' then (SLASH_EQUAL, n) else (FORWARD_SLASH, 1))
    else if c == '<' then (if d == '=' then (LESS_EQUAL, n) else (LESS, 1))
    else if c == '>' then (if d == '=' then (GREATER_EQUAL, n) else (GREATER, 1))
    else if c == '!' then (if d == '=' then (BANG_EQUAL, n) else (BANG, 1))
    else if c == ':' then (if d == ':' then (COLON_COLON, n) else (COLON, 1))
    else if c == '.' then
      if d == '.' then
        (if |s| >= 3 && s[2] == '=' then (DOT_DOT_EQUAL, 3)
         else if |s| >= 3 && s[2] == '.' then (ELLIPSE, 3)
         else (DOT_DOT, n))
      else (DOT, 1)
    else if c == '%' then (PERCENT, 1)
    else if c == '$' then (DOLLAR, 1)
    else if c == '&' then (AMPERSAND, 1)
    else if c == '|' then (PIPE, 1)
    else if c == '(' then (LEFT_PAREN, 1)
    else if c == ')' then (RIGHT_PAREN, 1)
    else if c == '{' then (LEFT_BRACE, 1)
    else if c == '}' then (RIGHT_BRACE, 1)
    else if c == '#' then (HASH, 1)
    else if c == '@' then (AT, 1)
    else if c == '~' then (TILDE, 1)
    else if c == ',' then (COMMA, 1)
    else if c == ';' then (SEMI_COLON, 1)
    else if c == '?' then (QUESTION, 1)
    else if c == '^' then (CARET, 1)
    else if c == '[' then (LEFT_BRACKET, 1)
    else if c == ']' then (RIGHT_BRACKET, 1)
    else (EOF, 0)
  }

  // --------------------------------------------------------- numbers and names

  /** How many digits the text starts with. */
  function Digits(s: string): (n: nat)
    ensures n <= |s|
  {
    if s != [] && IsDigit(s[0]) then 1 + Digits(s[1..]) else 0
  }

  /** The digits counted are all digits, and no more follow. */
  lemma {:induction false} DigitsAreAll(s: string, n: nat)
    requires n <= |s|
    ensures n == Digits(s) <==>
      (forall i :: 0 <= i < n ==> IsDigit(s[i])) && (n < |s| ==> !IsDigit(s[n]))
  {
    if s != [] && IsDigit(s[0]) {
      if n > 0 { DigitsAreAll(s[1..], n - 1); }
    }
  }

  /** How many identifier characters the text starts with. */
  function NameLength(s: string): (n: nat)
    ensures n <= |s|
  {
    if s != [] && IsIdentifier(s[0]) then 1 + NameLength(s[1..]) else 0
  }

  lemma {:induction false} NameLengthIsAll(s: string, n: nat)
    requires n <= |s|
    ensures n == NameLength(s) <==>
      (forall i :: 0 <= i < n ==> IsIdentifier(s[i])) && (n < |s| ==> !IsIdentifier(s[n]))
  {
    if s != [] && IsIdentifier(s[0]) {
      if n > 0 { NameLengthIsAll(s[1..], n - 1); }
    }
  }

  /** A number: digits, and a fraction if a point follows that does not start a range. */
  function LexNumber(s: string): Lexed
    requires s != [] && IsDigit(s[0])
  {
    var n := Digits(s);
    var tail := s[n..];
    if First(tail) != '.' || Second(tail) == '.' then Lexed(Token(INTEGER_LITERAL, s[..n]), tail)
    else
      var fraction := tail[1..];
      var m := Digits(fraction);
      if m == 0 then Lexed(Token(ERROR, "expected digit after '.'"), fraction)
      else Lexed(Token(DECIMAL_LITERAL, s[..n + 1 + m]), fraction[m..])
  }

  /** The keyword a name is, or an identifier; the table of keywords is ordered by length. */
  function KeywordKind(s: string): TokenType {
    if |s| == 2 then Keyword2(s)
    else if |s| == 3 then Keyword3(s)
    else if |s| == 4 then Keyword4(s)
    else if |s| == 5 then Keyword5(s)
    else if |s| == 6 then Keyword6(s)
    else if |s| == 7 then Keyword7(s)
    else if |s| == 8 then Keyword8(s)
    else IDENTIFIER
  }

  function Keyword2(s: string): TokenType {
    if s == "if" then IF
    else if s == "in" then IN
    else if s == "or" then OR
    else if s == "fn" then FN
    else IDENTIFIER
  }

  function Keyword3(s: string): TokenType {
    if s == "var" then VAR
    else if s == "let" then LET
    else if s == "for" then FOR
    else if s == "and" then AND
    else if s == "nil" then NIL
    else IDENTIFIER
  }

  function Keyword4(s: string): TokenType {
    if s == "impl" then IMPL
    else if s == "enum" then ENUM
    else if s == "true" then TRUE
    else if s == "else" then ELSE
    else if s == "imut" then IMUT
    else if s == "loop" then LOOP
    else if s == "cast" then CAST
    else IDENTIFIER
  }

  function Keyword5(s: string): TokenType {
    if s == "trait" then TRAIT
    else if s == "union" then UNION
    else if s == "async" then ASYNC
    else if s == "await" then AWAIT
    else if s == "false" then FALSE
    else if s == "const" then CONST
    else if s == "inout" then INOUT
    else if s == "alias" then ALIAS
    else if s == "while" then WHILE
    else if s == "match" then MATCH
    else if s == "break" then BREAK
    else if s == "error" then ERROR
    else IDENTIFIER
  }

  function Keyword6(s: string): TokenType {
    if s == "struct" then STRUCT
    else if s == "static" then STATIC
    else if s == "return" then RETURN
    else if s == "import" then IMPORT
    else if s == "extern" then EXTERN
    else if s == "sizeof" then SIZEOF
    else if s == "nameof" then NAMEOF
    else IDENTIFIER
  }

  function Keyword7(s: string): TokenType {
    if s == "private" then PRIVATE
    else if s == "alignof" then ALIGN_OF
    else IDENTIFIER
  }

  function Keyword8(s: string): TokenType {
    if s == "volatile" then VOLATILE
    else if s == "distinct" then DISTINCT
    else if s == "continue" then CONTINUE
    else IDENTIFIER
  }

  function LexName(s: string): Lexed
    requires s != [] && IsIdentifier(s[0])
  {
    var n := NameLength(s);
    Lexed(Token(KeywordKind(s[..n]), s[..n]), s[n..])
  }

  // ------------------------------------------------------------------ escapes

  /** The character an escape stands for. */
  function EscapeChar(c: char): Option<char> {
    if c == 'n' then Some('\n')
    else if c == 't' then Some('\t')
    else if c == '0' then Some('\0')
    else if c == 'r' then Some('\r')
    else if c == 'a' then Some(7 as char)
    else if c == 'b' then Some(8 as char)
    else if c == 'f' then Some(12 as char)
    else if c == 'v' then Some(11 as char)
    else if c == '\\' then Some('\\')
    else if c == '\"' then Some('\"')
    else if c == '\'' then Some('\'')
    else None
  }

  predicate StartsEscape(s: string) {
    |s| >= 2 && s[0] == '\\' && EscapeChar(s[1]).Some?
  }

  /** The characters of a string literal after its opening quote, and what follows the closing one. */
  datatype Quoted = Closed(content: string, rest: string) | Unclosed

  function Add(c: char, q: Quoted): Quoted {
    if q.Closed? then Closed([c] + q.content, q.rest) else Unclosed
  }

  function Unquote(s: string): (q: Quoted)
    ensures q.Closed? ==> |q.rest| < |s|
    decreases |s|
  {
    if s == [] then Unclosed
    else if s[0] == '"' then Closed("", s[1..])
    else if StartsEscape(s) then Add(EscapeChar(s[1]).value, Unquote(s[2..]))
    else Add(s[0], Unquote(s[1..]))
  }

  function LexString(s: string): Lexed
    requires s != []
  {
    match Unquote(s[1..])
    case Closed(content, rest) => Lexed(Token(STRING_LITERAL, content), rest)
    case Unclosed => Lexed(Token(ERROR, "unclosed string found"), "")
  }

  function LexChar(s: string): Lexed
    requires s != []
  {
    var t := s[1..];
    var n := if StartsEscape(t) then 2 else if t == [] then 0 else 1;
    var content := if n == 2 then [EscapeChar(t[1]).value] else t[..n];
    if First(t[n..]) == '\'' then Lexed(Token(CHAR_LITERAL, content), t[n + 1..])
    else Lexed(Token(ERROR, "unclosed or empty char found"), t[n..])
  }

  // -------------------------------------------------------------------- lexer

  /** The token the text starts with, where no trivia comes first. */
  function LexHere(s: string): Lexed {
    if s == [] then Lexed(Token(EOF, ""), "")
    else if s[0] == '\0' then Lexed(Token(EOF, "\0"), s[1..])
    else if Operator(s).1 > 0 then Lexed(Token(Operator(s).0, s[..Operator(s).1]), s[Operator(s).1..])
    else if s[0] == '"' then LexString(s)
    else if s[0] == '\'' then LexChar(s)
    else if IsDigit(s[0]) then LexNumber(s)
    else if IsIdentifier(s[0]) then LexName(s)
    else Unknown
  }

  function LexOne(s: string): Lexed {
    LexHere(SkipTrivia(s))
  }

  /** The first `n` tokens, if no unknown character comes among them, and what is left. */
  function LexMany(s: string, n: nat): (r: Option<(seq<Token>, string)>)
    ensures r.Some? ==> |r.value.0| == n
  {
    if n == 0 then Some(([], s))
    else
      var front := LexMany(s, n - 1);
      if front.None? then None
      else
        var l := LexOne(front.value.1);
        if l.Unknown? then None else Some((front.value.0 + [l.token], l.rest))
  }

  /** The text has at least `n` tokens: no unknown character comes among them. */
  ghost predicate Lexes(s: string, n: nat) {
    LexMany(s, n).Some?
  }

  /** The token at position `i`, if the text lexes that far. */
  function TokenAt(s: string, i: nat): Token {
    var front := LexMany(s, i + 1);
    if front.Some? then front.value.0[i] else Token(TOKEN_ERROR, "")
  }

  /** Lexing further changes none of the tokens before. */
  lemma {:induction false} LexManyPrefix(s: string, m: nat, n: nat)
    requires m <= n && LexMany(s, n).Some?
    ensures LexMany(s, m).Some? && LexMany(s, m).value.0 == LexMany(s, n).value.0[..m]
  {
    hide LexOne;
    if m < n {
      LexManyPrefix(s, m, n - 1);
    }
  }
}
