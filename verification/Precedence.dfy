/**
 The grammar written out: the ladder of binary operators and what an expression can start with,
 as tables of the tokens, and what the parser makes of them.
 */
module Precedence {
  import opened Tokens
  import opened Expressions
  import opened ParserInverse
  import opened ParserTheorems

  // ------------------------------------------------------------------- tables

  /** Binary operators, from those that bind weakest to those that bind most tightly. */
  const LADDER: seq<seq<(string, TokenType)>> := [
    [("and", AND)],
    [("or", OR)],
    [("==", EQUAL_EQUAL), ("!=", BANG_EQUAL)],
    [("<", LESS), ("<=", LESS_EQUAL), (">", GREATER), (">=", GREATER_EQUAL)],
    [("+", PLUS), ("-", MINUS)],
    [("*", STAR), ("/", FORWARD_SLASH), ("%", PERCENT)],
    [("**", STAR_STAR)],
    [("..", DOT_DOT), ("..=", DOT_DOT_EQUAL)]]

  const PREFIXES: seq<(string, TokenType)> := [("!", BANG), ("-", MINUS)]

  const ACCESSES: seq<(string, TokenType)> := [(".", DOT), ("::", COLON_COLON)]

  const POINTER_OPERATORS: seq<(string, TokenType)> := [("&", AMPERSAND), ("^", CARET)]

  const ATTRIBUTES: seq<(string, TokenType)> := [
    ("extern", EXTERN), ("private", PRIVATE), ("static", STATIC), ("volatile", VOLATILE)]

  const LITERALS: seq<TokenType> := [
    TRUE, FALSE, NIL, INTEGER_LITERAL, DECIMAL_LITERAL, STRING_LITERAL, CHAR_LITERAL]

  /** What else an expression can start with. */
  const OPENERS: seq<TokenType> := [
    LEFT_PAREN, LEFT_BRACE, LEFT_BRACKET, PIPE, ELLIPSE, IDENTIFIER, SIZEOF, NAMEOF, CAST]

  function Tok(spelled: (string, TokenType)): Token {
    Token(spelled.1, spelled.0)
  }

  predicate InLadder(k: TokenType) {
    exists i, op :: 0 <= i < |LADDER| && op in LADDER[i] && op.1 == k
  }

  // ----------------------------------------------- the tables are the parser's

  lemma LadderLevel(i: nat, op: (string, TokenType))
    requires i < |LADDER| && op in LADDER[i]
    ensures OpLevel(op.1) == i < 8 && Tok(op) == Fixed(op.1) && !IsPostfix(op.1)
    ensures op.1 != COLON && op.1 != LEFT_BRACE
  {
  }

  lemma LadderComplete(k: TokenType)
    ensures IsOp(k) <==> InLadder(k)
  {
    if IsOp(k) {
      var i := OpLevel(k);
      assert (Spelling(k), k) in LADDER[i];
    }
    if i, op :| 0 <= i < |LADDER| && op in LADDER[i] && op.1 == k { LadderLevel(i, op); }
  }

  // ----------------------------------------------------------- binary operators

  /** An expression that needs no parentheses as an operand, and does not end in an open one. */
  predicate IsOperand(e: Expr, init: bool) {
    WellFormed(e, init) && Level(e) == 9 && Last(e).Absent?
  }

  /** Literals, names and groups, for instance. */
  lemma Operands(e: Expr, init: bool)
    requires || (e.Literal? && e.token.kind in LITERALS && Canonical(e.token)) || e.Symbol?
             || (e.Group? && WellFormed(e.inner, init))
    ensures IsOperand(e, init)
  {
  }

  lemma OperandStops(e: Expr, i: nat, op: (string, TokenType), init: bool)
    requires IsOperand(e, init) && i < |LADDER| && op in LADDER[i]
    ensures Stops(e, op.1, init)
  {
    LadderLevel(i, op);
    hide OpLevel, WellFormed;
  }

  /** An operator takes operands of its own rung, or one above, on its left, and only of higher ones on its right. */
  lemma BinaryFormed(left: Expr, i: nat, op: (string, TokenType), right: Expr, init: bool)
    requires i < |LADDER| && op in LADDER[i] && WellFormed(left, init) && WellFormed(right, init)
    requires Level(left) >= i && Level(right) > i && Stops(left, op.1, init)
    ensures var e := Binary(left, op.1, right);
            WellFormed(e, init) && Level(e) == i && Flatten(e) == Flatten(left) + ([Tok(op)] + Flatten(right))
  {
    LadderLevel(i, op);
    hide OpLevel, Stops, Spelling;
  }

  /** The tree of three operands and two operators: what binds tighter, or comes first, is taken together. */
  function Ranked(a: Expr, i: nat, k: TokenType, b: Expr, j: nat, l: TokenType, c: Expr): Expr {
    if i >= j then Binary(Binary(a, k, b), l, c) else Binary(a, k, Binary(b, l, c))
  }

  /** Binary operators bind as the ladder says, and to the left on the same rung. */
  lemma LadderParses(a: Expr, i: nat, op: (string, TokenType), b: Expr, j: nat, next: (string, TokenType), c: Expr,
                     init: bool)
    requires IsOperand(a, init) && IsOperand(b, init) && IsOperand(c, init)
    requires i < |LADDER| && op in LADDER[i] && j < |LADDER| && next in LADDER[j]
    ensures var ts := Flatten(a) + ([Tok(op)] + (Flatten(b) + ([Tok(next)] + Flatten(c))));
            ParseLevel(ts, 0, init) == Ok(Ranked(a, i, op.1, b, j, next.1, c), [])
  {
    hide ParseLevel, WellFormed, Flatten;
    RankedFormed(a, i, op, b, j, next, c, init);
    ParseFlattened(Ranked(a, i, op.1, b, j, next.1, c), init);
  }

  lemma RankedFormed(a: Expr, i: nat, op: (string, TokenType), b: Expr, j: nat, next: (string, TokenType), c: Expr,
                     init: bool)
    requires IsOperand(a, init) && IsOperand(b, init) && IsOperand(c, init)
    requires i < |LADDER| && op in LADDER[i] && j < |LADDER| && next in LADDER[j]
    ensures var e := Ranked(a, i, op.1, b, j, next.1, c);
            && WellFormed(e, init)
            && Flatten(e) == Flatten(a) + ([Tok(op)] + (Flatten(b) + ([Tok(next)] + Flatten(c))))
  {
    hide WellFormed, Flatten;
    if i >= j {
      LeftFormed(a, i, op, b, j, next, c, init);
    } else {
      RightFormed(a, i, op, b, j, next, c, init);
    }
  }

  lemma LeftFormed(a: Expr, i: nat, op: (string, TokenType), b: Expr, j: nat, next: (string, TokenType), c: Expr,
                   init: bool)
    requires IsOperand(a, init) && IsOperand(b, init) && IsOperand(c, init)
    requires i < |LADDER| && op in LADDER[i] && j <= i && next in LADDER[j]
    ensures var e := Binary(Binary(a, op.1, b), next.1, c);
            && WellFormed(e, init)
            && Flatten(e) == Flatten(a) + ([Tok(op)] + (Flatten(b) + ([Tok(next)] + Flatten(c))))
  {
    OperandStops(a, i, op, init);
    OperandStops(b, j, next, init);
    StopsAsRight(a, op.1, b, next.1, init);
    hide WellFormed, Flatten, Stops, Last;
    BinaryFormed(a, i, op, b, init);
    BinaryFormed(Binary(a, op.1, b), j, next, c, init);
    Regroup(Flatten(a), [Tok(op)], Flatten(b), [Tok(next)] + Flatten(c));
  }

  lemma Regroup<T>(a: seq<T>, b: seq<T>, c: seq<T>, d: seq<T>)
    ensures a + (b + c) + d == a + (b + (c + d))
  {
  }

  lemma RightFormed(a: Expr, i: nat, op: (string, TokenType), b: Expr, j: nat, next: (string, TokenType), c: Expr,
                    init: bool)
    requires IsOperand(a, init) && IsOperand(b, init) && IsOperand(c, init)
    requires i < |LADDER| && op in LADDER[i] && i < j < |LADDER| && next in LADDER[j]
    ensures var e := Binary(a, op.1, Binary(b, next.1, c));
            && WellFormed(e, init)
            && Flatten(e) == Flatten(a) + ([Tok(op)] + (Flatten(b) + ([Tok(next)] + Flatten(c))))
  {
    OperandStops(a, i, op, init);
    OperandStops(b, j, next, init);
    hide WellFormed, Flatten, Stops, Last;
    BinaryFormed(b, j, next, c, init);
    BinaryFormed(a, i, op, Binary(b, next.1, c), init);
  }

  lemma StopsAsRight(a: Expr, op: TokenType, b: Expr, k: TokenType, init: bool)
    requires Stops(b, k, init)
    ensures Stops(Binary(a, op, b), k, init)
  {
  }

  // -------------------------------------------------- prefixes, access, pointers

  lemma PrefixFormed(p: (string, TokenType), e: Expr, init: bool)
    requires p in PREFIXES && WellFormed(e, init) && Level(e) >= 8
    ensures var u := Unary(p.1, e);
            WellFormed(u, init) && Level(u) == 8 && Flatten(u) == [Tok(p)] + Flatten(e)
    ensures forall k :: Stops(e, k, init) ==> Stops(Unary(p.1, e), k, init)
  {
    hide Stops;
    assert Tok(p) == Fixed(p.1);
    forall k | Stops(e, k, init) ensures Stops(Unary(p.1, e), k, init) { StopsAsOperand(p.1, e, k, init); }
  }

  lemma StopsAsOperand(op: TokenType, e: Expr, k: TokenType, init: bool)
    requires Stops(e, k, init)
    ensures Stops(Unary(op, e), k, init)
  {
  }

  /** A prefix binds more tightly than any binary operator, on either side of one. */
  lemma PrefixParses(p: (string, TokenType), a: Expr, i: nat, op: (string, TokenType), b: Expr, init: bool)
    requires p in PREFIXES && IsOperand(a, init) && IsOperand(b, init) && i < |LADDER| && op in LADDER[i]
    ensures ParseLevel([Tok(p)] + Flatten(a), 0, init) == Ok(Unary(p.1, a), [])
    ensures ParseLevel([Tok(p)] + Flatten(a) + ([Tok(op)] + Flatten(b)), 0, init) ==
              Ok(Binary(Unary(p.1, a), op.1, b), [])
    ensures ParseLevel(Flatten(a) + ([Tok(op)] + ([Tok(p)] + Flatten(b))), 0, init) ==
              Ok(Binary(a, op.1, Unary(p.1, b)), [])
  {
    PrefixFormed(p, a, init);
    PrefixFormed(p, b, init);
    OperandStops(a, i, op, init);
    hide ParseLevel, WellFormed, Flatten, Stops, Last;
    BinaryFormed(Unary(p.1, a), i, op, b, init);
    BinaryFormed(a, i, op, Unary(p.1, b), init);
    ParseFlattened(Unary(p.1, a), init);
    ParseFlattened(Binary(Unary(p.1, a), op.1, b), init);
    ParseFlattened(Binary(a, op.1, Unary(p.1, b)), init);
  }

  /** An access takes the rest of its primary in, and a pointer operator the primary after it. */
  lemma AccessParses(x: (string, TokenType), target: Expr, accessor: Expr, init: bool)
    requires x in ACCESSES && IsOperand(target, init) && IsBase(target)
    requires WellFormed(accessor, init) && Level(accessor) == 9
    ensures ParseLevel(Flatten(target) + ([Tok(x)] + Flatten(accessor)), 0, init) ==
              Ok(Member(target, x.1, accessor), [])
  {
    hide ParseLevel, WellFormed, Flatten;
    MemberFormed(x, target, accessor, init);
    ParseFlattened(Member(target, x.1, accessor), init);
  }

  lemma MemberFormed(x: (string, TokenType), target: Expr, accessor: Expr, init: bool)
    requires x in ACCESSES && IsOperand(target, init) && IsBase(target)
    requires WellFormed(accessor, init) && Level(accessor) == 9
    ensures var e := Member(target, x.1, accessor);
            WellFormed(e, init) && Flatten(e) == Flatten(target) + ([Tok(x)] + Flatten(accessor))
  {
    AccessIs(x);
    OperandInnerStops(target, x.1, init);
    hide Spelling, OpLevel, IsAccess, InnerStops, Stops, Last;
  }

  lemma AccessIs(x: (string, TokenType))
    requires x in ACCESSES
    ensures Tok(x) == Fixed(x.1) && IsAccess(x.1) && x.1 != COLON && x.1 != LEFT_BRACE
  {
  }

  lemma OperandInnerStops(e: Expr, k: TokenType, init: bool)
    requires Last(e).Absent? && k != COLON && k != LEFT_BRACE
    ensures InnerStops(e, k, init)
  {
    hide Stops, OpLevel;
  }

  lemma PointerParses(p: (string, TokenType), operand: Expr, init: bool)
    requires p in POINTER_OPERATORS && WellFormed(operand, init) && Level(operand) == 9
    ensures ParseLevel([Tok(p)] + Flatten(operand), 0, init) == Ok(PtrOp(p.1, operand), [])
  {
    hide ParseLevel, WellFormed, Flatten;
    PointerFormed(p, operand, init);
    ParseFlattened(PtrOp(p.1, operand), init);
  }

  lemma PointerFormed(p: (string, TokenType), operand: Expr, init: bool)
    requires p in POINTER_OPERATORS && WellFormed(operand, init) && Level(operand) == 9
    ensures WellFormed(PtrOp(p.1, operand), init) && Flatten(PtrOp(p.1, operand)) == [Tok(p)] + Flatten(operand)
  {
    assert Tok(p) == Fixed(p.1) && IsPtrOp(p.1);
    hide Spelling, Level;
  }

  // --------------------------------------------------------------- single tokens

  /** A literal stands for itself, and only a binary operator carries on after it. */
  lemma LiteralParses(t: Token, rest: seq<Token>, init: bool)
    requires t.kind in LITERALS && Canonical(t) && !InLadder(Peek(rest))
    ensures ParseLevel([t] + rest, 0, init) == Ok(Literal(t), rest)
  {
    LadderComplete(Peek(rest));
    Operands(Literal(t), init);
    hide ParseLevel, LADDER, Spelling;
    assert Flatten(Literal(t)) == [t];
    LevelParses(Literal(t), 0, rest, init);
  }

  /** Where initialization is not allowed, a brace after a name is left alone, as before the body of a branch. */
  lemma NameBeforeBrace(name: string, rest: seq<Token>)
    requires Peek(rest) == LEFT_BRACE
    ensures ParseLevel([Token(IDENTIFIER, name)] + rest, 0, false) == Ok(Symbol(name), rest)
  {
    hide ParseLevel, Spelling;
    assert Flatten(Symbol(name)) == [Token(IDENTIFIER, name)];
    LevelParses(Symbol(name), 0, rest, false);
  }

  lemma AttributeParses(a: (string, TokenType), init: bool)
    requires a in ATTRIBUTES
    ensures ParseLevel([Tok(a)], 0, init) == Ok(Expr.Keyword(a.1), [])
  {
    var e := Expr.Keyword(a.1);
    assert Tok(a) == Fixed(a.1);
    assert WellFormed(e, init) && Flatten(e) == [Tok(a)];
    hide ParseLevel, WellFormed, Flatten;
    ParseFlattened(e, init);
  }

  /** The types an expression can start with. */
  predicate Starts(k: TokenType) {
    || k in LITERALS || k in OPENERS
    || (exists p :: p in PREFIXES && p.1 == k) || (exists p :: p in POINTER_OPERATORS && p.1 == k)
    || (exists a :: a in ATTRIBUTES && a.1 == k)
  }

  /** Any other token is an error. */
  lemma {:induction false} StartRefused(ts: seq<Token>, level: nat, init: bool)
    requires level <= 8 && !Starts(Peek(ts))
    ensures ParseLevel(ts, level, init) == Fail(Unexpected)
    decreases 8 - level
  {
    hide Starts;
    if level < 8 {
      StartRefused(ts, level + 1, init);
    } else {
      NoStart(Peek(ts));
      hide IsPrefix, StartsInner, IsLiteral, ParseInner, ParsePostfix;
      assert ParsePrimary(ts, init) == Fail(Unexpected);
      assert ParseUnary(ts, init) == Fail(Unexpected);
    }
  }

  lemma NoStart(k: TokenType)
    requires !Starts(k)
    ensures !IsPrefix(k) && !StartsInner(k) && !IsLiteral(k)
  {
    assert ("!", BANG) in PREFIXES && ("-", MINUS) in PREFIXES;
    assert ("&", AMPERSAND) in POINTER_OPERATORS && ("^", CARET) in POINTER_OPERATORS;
    assert forall a :: a in ATTRIBUTES ==> a.1 != k;
    assert ATTRIBUTES[0].1 == EXTERN && ATTRIBUTES[1].1 == PRIVATE;
    assert ATTRIBUTES[2].1 == STATIC && ATTRIBUTES[3].1 == VOLATILE;
  }
}
