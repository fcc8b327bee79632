/**
 Expressions: the trees the parser builds, the recursive-descent parser as a function on the
 remaining tokens, and the flattening of a tree back into tokens.
 */
module Expressions {
  import opened Tokens

  datatype Expr =
    | Literal(token: Token)
    | Symbol(name: string)
    | Named(name: string, value: Expr)
    | Group(inner: Expr)
    | Unary(op: TokenType, right: Expr)
    | Binary(left: Expr, op: TokenType, right: Expr)
    | Call(callable: Expr, args: seq<Expr>)
    | Index(lhs: Expr, index: Expr)
    | Slice(lhs: Expr, start: Maybe, end: Maybe)
    | Member(target: Expr, access: TokenType, accessor: Expr)
    | SizeofOf(operand: Expr)
    | NameofOf(operand: Expr)
    | Keyword(kind: TokenType)
    | AnonInit(elements: seq<Expr>)
    | StructLiteral(name: string, elements: seq<Expr>)
    | ArrayLiteral(elements: seq<Expr>)
    | Abs(inner: Expr)
    | PtrOp(op: TokenType, operand: Expr)
    | Packed

  datatype Maybe = Absent | Given(expr: Expr)

  /** The last one is the lexer's, and raised only where the parser runs on a lexer. */
  datatype ParseError = Unexpected | NotModelled | BadCharacter

  datatype Parsed = Ok(tree: Expr, rest: seq<Token>) | Fail(error: ParseError)
  datatype ParsedList = OkList(trees: seq<Expr>, after: seq<Token>) | FailList(error: ParseError)

  // ------------------------------------------------------------- vocabulary

  /** Binding strength of binary operators, weakest first; 8 for everything else. */
  function OpLevel(kind: TokenType): (level: nat)
    ensures level <= 8
  {
    if kind == AND then 0
    else if kind == OR then 1
    else if kind == EQUAL_EQUAL || kind == BANG_EQUAL then 2
    else if kind == LESS || kind == LESS_EQUAL || kind == GREATER || kind == GREATER_EQUAL then 3
    else if kind == PLUS || kind == MINUS then 4
    else if kind == STAR || kind == FORWARD_SLASH || kind == PERCENT then 5
    else if kind == STAR_STAR then 6
    else if kind == DOT_DOT || kind == DOT_DOT_EQUAL then 7
    else 8
  }

  predicate IsOp(kind: TokenType) { OpLevel(kind) < 8 }

  predicate IsPrefix(kind: TokenType) { kind == BANG || kind == MINUS }

  predicate IsAccess(kind: TokenType) { kind == DOT || kind == COLON_COLON }

  predicate IsPtrOp(kind: TokenType) { kind == AMPERSAND || kind == CARET }

  predicate IsPostfix(kind: TokenType) { kind == LEFT_BRACKET || IsAccess(kind) || kind == LEFT_PAREN }

  predicate IsLiteral(kind: TokenType) {
    || kind == TRUE || kind == FALSE || kind == NIL || kind == INTEGER_LITERAL || kind == DECIMAL_LITERAL
    || kind == STRING_LITERAL || kind == CHAR_LITERAL
  }

  predicate IsAttribute(kind: TokenType) {
    kind == EXTERN || kind == PRIVATE || kind == STATIC || kind == VOLATILE
  }

  predicate StartsInner(kind: TokenType) {
    || kind == LEFT_PAREN || kind == IDENTIFIER || kind == SIZEOF || kind == NAMEOF || kind == CAST
    || kind == LEFT_BRACE || kind == PIPE || kind == ELLIPSE || kind == LEFT_BRACKET
    || IsAttribute(kind) || IsPtrOp(kind)
  }

  function Peek(ts: seq<Token>): TokenType {
    if ts == [] then EOF else ts[0].kind
  }

  // ----------------------------------------------------------------- parser

  /** Binary levels 0 to 7, and unary expressions as level 8. */
  function ParseLevel(ts: seq<Token>, level: nat, init: bool): (r: Parsed)
    requires level <= 8
    ensures r.Ok? ==> |r.rest| < |ts|
    decreases |ts|, 20 - level
  {
    if level == 8 then ParseUnary(ts, init)
    else
      var first := ParseLevel(ts, level + 1, init);
      if first.Fail? then first else ParseFold(first.tree, first.rest, level, init)
  }

  /** The loop of a binary level: operators of the level fold to the left. */
  function ParseFold(left: Expr, ts: seq<Token>, level: nat, init: bool): (r: Parsed)
    requires level < 8
    ensures r.Ok? ==> |r.rest| <= |ts|
    decreases |ts|, 0
  {
    if OpLevel(Peek(ts)) == level then
      var right := ParseLevel(ts[1..], level + 1, init);
      if right.Fail? then right
      else ParseFold(Binary(left, Peek(ts), right.tree), right.rest, level, init)
    else Ok(left, ts)
  }

  function ParseUnary(ts: seq<Token>, init: bool): (r: Parsed)
    ensures r.Ok? ==> |r.rest| < |ts|
    decreases |ts|, 11
  {
    if IsPrefix(Peek(ts)) then
      var r := ParseUnary(ts[1..], init);
      if r.Fail? then r else Ok(Unary(Peek(ts), r.tree), r.rest)
    else ParsePrimary(ts, init)
  }

  function ParsePrimary(ts: seq<Token>, init: bool): (r: Parsed)
    ensures r.Ok? ==> |r.rest| < |ts|
    decreases |ts|, 10
  {
    if StartsInner(Peek(ts)) then
      var r := ParseInner(ts, init);
      if r.Fail? then r else ParsePostfix(r.tree, r.rest, init)
    else if IsLiteral(Peek(ts)) then Ok(Literal(ts[0]), ts[1..])
    else Fail(Unexpected)
  }

  /** What may follow an inner expression: any number of brackets, then one access or call. */
  function ParsePostfix(lhs: Expr, ts: seq<Token>, init: bool): (r: Parsed)
    ensures r.Ok? ==> |r.rest| <= |ts|
    decreases |ts|, 9
  {
    if Peek(ts) == LEFT_BRACKET then
      if Peek(ts[1..]) == COLON then ParseSliceEnd(lhs, Absent, ts[2..], init)
      else
        var i := ParseLevel(ts[1..], 0, init);
        if i.Fail? then i
        else if Peek(i.rest) == COLON then ParseSliceEnd(lhs, Given(i.tree), i.rest[1..], init)
        else if Peek(i.rest) == COMMA then Fail(NotModelled)
        else if Peek(i.rest) == RIGHT_BRACKET then ParsePostfix(Index(lhs, i.tree), i.rest[1..], init)
        else Fail(Unexpected)
    else if IsAccess(Peek(ts)) then
      var r := ParsePrimary(ts[1..], init);
      if r.Fail? then r else Ok(Member(lhs, Peek(ts), r.tree), r.rest)
    else if Peek(ts) == LEFT_PAREN then
      var r := ParseList(ts[1..], RIGHT_PAREN, init);
      if r.FailList? then Fail(r.error)
      else if Peek(r.after) == RIGHT_PAREN then Ok(Call(lhs, r.trees), r.after[1..])
      else Fail(Unexpected)
    else Ok(lhs, ts)
  }

  function ParseSliceEnd(lhs: Expr, start: Maybe, ts: seq<Token>, init: bool): (r: Parsed)
    ensures r.Ok? ==> |r.rest| <= |ts|
    decreases |ts|, 21
  {
    if Peek(ts) == RIGHT_BRACKET then ParsePostfix(Slice(lhs, start, Absent), ts[1..], init)
    else
      var e := ParseLevel(ts, 0, init);
      if e.Fail? then e
      else if Peek(e.rest) == RIGHT_BRACKET then ParsePostfix(Slice(lhs, start, Given(e.tree)), e.rest[1..], init)
      else Fail(Unexpected)
  }

  /** A comma-separated list up to, but not including, the closing token; a comma may trail. */
  function ParseList(ts: seq<Token>, close: TokenType, init: bool): (r: ParsedList)
    ensures r.OkList? ==> |r.after| <= |ts|
    decreases |ts|, 21
  {
    if Peek(ts) == close then OkList([], ts)
    else
      var e := ParseLevel(ts, 0, init);
      if e.Fail? then FailList(e.error)
      else if Peek(e.rest) == COMMA then
        var r := ParseList(e.rest[1..], close, init);
        if r.FailList? then r else OkList([e.tree] + r.trees, r.after)
      else OkList([e.tree], e.rest)
  }

  /** The elements of an array literal: at least one, and no comma at the end. */
  function ParseElements(ts: seq<Token>, init: bool): (r: ParsedList)
    ensures r.OkList? ==> |r.after| <= |ts|
    decreases |ts|, 21
  {
    var e := ParseLevel(ts, 0, init);
    if e.Fail? then FailList(e.error)
    else if Peek(e.rest) == COMMA then
      var r := ParseElements(e.rest[1..], init);
      if r.FailList? then r else OkList([e.tree] + r.trees, r.after)
    else OkList([e.tree], e.rest)
  }

  function ParseInner(ts: seq<Token>, init: bool): (r: Parsed)
    requires StartsInner(Peek(ts))
    ensures r.Ok? ==> |r.rest| < |ts|
    decreases |ts|, 9
  {
    var kind, tail := Peek(ts), ts[1..];
    if kind == LEFT_PAREN || kind == PIPE then ParseEnclosed(ts, init)
    else if kind == IDENTIFIER then ParseIdentifier(ts, init)
    else if kind == SIZEOF || kind == NAMEOF then
      var e := ParseLevel(tail, 0, init);
      if e.Fail? then e else Ok(if kind == SIZEOF then SizeofOf(e.tree) else NameofOf(e.tree), e.rest)
    else if kind == CAST then Fail(NotModelled)
    else if IsAttribute(kind) then Ok(Keyword(kind), tail)
    else if IsPtrOp(kind) then
      var e := ParsePrimary(tail, init);
      if e.Fail? then e else Ok(PtrOp(kind, e.tree), e.rest)
    else if kind == ELLIPSE then Ok(Packed, tail)
    else ParseBraced(ts, init)
  }

  function ParseEnclosed(ts: seq<Token>, init: bool): (r: Parsed)
    requires Peek(ts) == LEFT_PAREN || Peek(ts) == PIPE
    ensures r.Ok? ==> |r.rest| < |ts|
    decreases |ts|, 8
  {
    var e := ParseLevel(ts[1..], 0, init);
    if e.Fail? then e
    else if Peek(ts) == LEFT_PAREN && Peek(e.rest) == RIGHT_PAREN then Ok(Group(e.tree), e.rest[1..])
    else if Peek(ts) == PIPE && Peek(e.rest) == PIPE then Ok(Abs(e.tree), e.rest[1..])
    else Fail(Unexpected)
  }

  /** A name, a named argument, or, where initialization is allowed, a struct literal. */
  function ParseIdentifier(ts: seq<Token>, init: bool): (r: Parsed)
    requires Peek(ts) == IDENTIFIER
    ensures r.Ok? ==> |r.rest| < |ts|
    decreases |ts|, 8
  {
    var tail := ts[1..];
    if Peek(tail) == COLON then
      var e := ParseLevel(tail[1..], 0, init);
      if e.Fail? then e else Ok(Named(ts[0].lexeme, e.tree), e.rest)
    else if init && Peek(tail) == LEFT_BRACE then
      var r := ParseList(tail[1..], RIGHT_BRACE, init);
      if r.FailList? then Fail(r.error)
      else if Peek(r.after) == RIGHT_BRACE then Ok(StructLiteral(ts[0].lexeme, r.trees), r.after[1..])
      else Fail(Unexpected)
    else Ok(Symbol(ts[0].lexeme), tail)
  }

  /** An anonymous initializer or an array literal. */
  function ParseBraced(ts: seq<Token>, init: bool): (r: Parsed)
    requires Peek(ts) == LEFT_BRACE || Peek(ts) == LEFT_BRACKET
    ensures r.Ok? ==> |r.rest| < |ts|
    decreases |ts|, 8
  {
    if Peek(ts) == LEFT_BRACE then
      var r := ParseList(ts[1..], RIGHT_BRACE, init);
      if r.FailList? then Fail(r.error)
      else if Peek(r.after) == RIGHT_BRACE then Ok(AnonInit(r.trees), r.after[1..])
      else Fail(Unexpected)
    else
      var r := ParseElements(ts[1..], init);
      if r.FailList? then Fail(r.error)
      else if Peek(r.after) == RIGHT_BRACKET then Ok(ArrayLiteral(r.trees), r.after[1..])
      else Fail(Unexpected)
  }

  // --------------------------------------------------------------- flattener

  function Flatten(e: Expr): (ts: seq<Token>)
    ensures |ts| > 0
  {
    match e
    case Literal(token) => [token]
    case Symbol(name) => [Token(IDENTIFIER, name)]
    case Named(name, value) => [Token(IDENTIFIER, name), Fixed(COLON)] + Flatten(value)
    case Group(inner) => [Fixed(LEFT_PAREN)] + Flatten(inner) + [Fixed(RIGHT_PAREN)]
    case Unary(op, right) => [Fixed(op)] + Flatten(right)
    case Binary(left, op, right) => Flatten(left) + ([Fixed(op)] + Flatten(right))
    case Call(callable, args) => Flatten(callable) + ([Fixed(LEFT_PAREN)] + FlattenList(args) + [Fixed(RIGHT_PAREN)])
    case Index(lhs, index) => Flatten(lhs) + ([Fixed(LEFT_BRACKET)] + Flatten(index) + [Fixed(RIGHT_BRACKET)])
    case Slice(lhs, start, end) =>
      Flatten(lhs)
        + ([Fixed(LEFT_BRACKET)] + FlattenMaybe(start) + [Fixed(COLON)] + FlattenMaybe(end) + [Fixed(RIGHT_BRACKET)])
    case Member(target, access, accessor) => Flatten(target) + ([Fixed(access)] + Flatten(accessor))
    case SizeofOf(operand) => [Fixed(SIZEOF)] + Flatten(operand)
    case NameofOf(operand) => [Fixed(NAMEOF)] + Flatten(operand)
    case Keyword(kind) => [Fixed(kind)]
    case AnonInit(elements) => [Fixed(LEFT_BRACE)] + FlattenList(elements) + [Fixed(RIGHT_BRACE)]
    case StructLiteral(name, elements) =>
      [Token(IDENTIFIER, name), Fixed(LEFT_BRACE)] + FlattenList(elements) + [Fixed(RIGHT_BRACE)]
    case ArrayLiteral(elements) => [Fixed(LEFT_BRACKET)] + FlattenList(elements) + [Fixed(RIGHT_BRACKET)]
    case Abs(inner) => [Fixed(PIPE)] + Flatten(inner) + [Fixed(PIPE)]
    case PtrOp(op, operand) => [Fixed(op)] + Flatten(operand)
    case Packed => [Fixed(ELLIPSE)]
  }

  function FlattenMaybe(m: Maybe): seq<Token> {
    if m.Absent? then [] else Flatten(m.expr)
  }

  function FlattenList(es: seq<Expr>): seq<Token> {
    if es == [] then []
    else if |es| == 1 then Flatten(es[0])
    else Flatten(es[0]) + ([Fixed(COMMA)] + FlattenList(es[1..]))
  }
}
