/** Expressions as they are written: the words of every construct, and what reading them gives. */
module SourceForms {
  import opened Tokens
  import opened LexRoundTrip
  import opened Expressions
  import opened ParserInverse
  import opened Precedence
  import opened SourceRoundTrip

  /** The words an expression is written with. */
  function Words(e: Expr): seq<string> {
    match e
    case Literal(token) => [Printed(token)]
    case Symbol(name) => [name]
    case Named(name, value) => [name, ":"] + Words(value)
    case Group(inner) => ["("] + Words(inner) + [")"]
    case Unary(op, right) => [Spelling(op)] + Words(right)
    case Binary(left, op, right) => Words(left) + ([Spelling(op)] + Words(right))
    case Call(callable, args) => Words(callable) + (["("] + WordsOfList(args) + [")"])
    case Index(lhs, index) => Words(lhs) + (["["] + Words(index) + ["]"])
    case Slice(lhs, start, end) => Words(lhs) + (["["] + WordsOfMaybe(start) + [":"] + WordsOfMaybe(end) + ["]"])
    case Member(target, access, accessor) => Words(target) + ([Spelling(access)] + Words(accessor))
    case SizeofOf(operand) => ["sizeof"] + Words(operand)
    case NameofOf(operand) => ["nameof"] + Words(operand)
    case Keyword(kind) => [Spelling(kind)]
    case AnonInit(elements) => ["{"] + WordsOfList(elements) + ["}"]
    case StructLiteral(name, elements) => [name, "{"] + WordsOfList(elements) + ["}"]
    case ArrayLiteral(elements) => ["["] + WordsOfList(elements) + ["]"]
    case Abs(inner) => ["|"] + Words(inner) + ["|"]
    case PtrOp(op, operand) => [Spelling(op)] + Words(operand)
    case Packed => ["..."]
  }

  function WordsOfMaybe(m: Maybe): seq<string> {
    if m.Absent? then [] else Words(m.expr)
  }

  function WordsOfList(es: seq<Expr>): seq<string> {
    if es == [] then []
    else if |es| == 1 then Words(es[0])
    else Words(es[0]) + ([","] + WordsOfList(es[1..]))
  }

  /** Words with a blank between them. */
  function Spaced(ws: seq<string>): string {
    if ws == [] then ""
    else if |ws| == 1 then ws[0]
    else ws[0] + (" " + Spaced(ws[1..]))
  }

  // ------------------------------------------------ the words are those printed

  function WordsOfTokens(ts: seq<Token>): (ws: seq<string>)
    ensures |ws| == |ts|
  {
    seq(|ts|, i requires 0 <= i < |ts| => Printed(ts[i]))
  }

  lemma {:induction false} PrintSpaced(ts: seq<Token>)
    ensures PrintAll(ts) == Spaced(WordsOfTokens(ts))
  {
    hide Printed;
    if |ts| > 1 {
      PrintSpaced(ts[1..]);
      assert WordsOfTokens(ts)[1..] == WordsOfTokens(ts[1..]);
    }
  }

  lemma JoinTokens(a: seq<Token>, b: seq<Token>)
    ensures WordsOfTokens(a + b) == WordsOfTokens(a) + WordsOfTokens(b)
  {
    hide Printed;
  }

  lemma OneToken(k: TokenType)
    requires k != STRING_LITERAL && k != CHAR_LITERAL
    ensures WordsOfTokens([Fixed(k)]) == [Spelling(k)]
  {
  }

  /** No type of a literal that is printed in quotes. */
  predicate IsPlainKind(k: TokenType) {
    k != STRING_LITERAL && k != CHAR_LITERAL
  }

  lemma WordsBefore(k: TokenType, a: seq<Token>)
    requires IsPlainKind(k)
    ensures WordsOfTokens([Fixed(k)] + a) == [Spelling(k)] + WordsOfTokens(a)
  {
    OneToken(k);
    JoinTokens([Fixed(k)], a);
  }

  lemma WordsAround(k: TokenType, a: seq<Token>, l: TokenType)
    requires IsPlainKind(k) && IsPlainKind(l)
    ensures WordsOfTokens([Fixed(k)] + a + [Fixed(l)]) == [Spelling(k)] + WordsOfTokens(a) + [Spelling(l)]
  {
    WordsBefore(k, a);
    OneToken(l);
    JoinTokens([Fixed(k)] + a, [Fixed(l)]);
  }

  /** A name, alone or with a token of fixed spelling after it. */
  lemma WordsOfName(name: string, k: TokenType)
    requires IsPlainKind(k)
    ensures WordsOfTokens([Token(IDENTIFIER, name)]) == [name]
    ensures WordsOfTokens([Token(IDENTIFIER, name), Fixed(k)]) == [name, Spelling(k)]
  {
  }

  lemma BracketSpellings()
    ensures Spelling(LEFT_PAREN) == "(" && Spelling(RIGHT_PAREN) == ")"
    ensures Spelling(LEFT_BRACKET) == "[" && Spelling(RIGHT_BRACKET) == "]"
    ensures Spelling(LEFT_BRACE) == "{" && Spelling(RIGHT_BRACE) == "}"
  {
  }

  lemma MarkSpellings()
    ensures Spelling(COLON) == ":" && Spelling(COMMA) == "," && Spelling(PIPE) == "|" && Spelling(ELLIPSE) == "..."
    ensures Spelling(SIZEOF) == "sizeof" && Spelling(NAMEOF) == "nameof"
  {
  }

  /** The words of a tree are the tokens it flattens to, printed. */
  lemma {:induction false} WordsAreTokens(e: Expr, init: bool)
    requires WellFormed(e, init)
    ensures WordsOfTokens(Flatten(e)) == Words(e)
    decreases e, 2
  {
    if e.Literal? || e.Symbol? || e.Keyword? || e.Packed? {
      WordsOfLeaf(e, init);
    } else if e.Named? || e.Unary? || e.SizeofOf? || e.NameofOf? || e.PtrOp? {
      WordsOfPrefixed(e, init);
    } else if e.Binary? || e.Member? {
      WordsOfInfix(e, init);
    } else if e.Call? || e.Index? || e.Slice? {
      WordsOfPostfix(e, init);
    } else {
      WordsOfEnclosed(e, init);
    }
  }

  lemma WordsOfLeaf(e: Expr, init: bool)
    requires WellFormed(e, init) && (e.Literal? || e.Symbol? || e.Keyword? || e.Packed?)
    ensures WordsOfTokens(Flatten(e)) == Words(e)
  {
    MarkSpellings();
    hide Spelling, Canonical;
    if e.Symbol? { WordsOfName(e.name, COLON); }
    if e.Keyword? { OneToken(e.kind); }
    if e.Packed? { OneToken(ELLIPSE); }
  }

  lemma {:induction false} WordsOfPrefixed(e: Expr, init: bool)
    requires WellFormed(e, init) && (e.Named? || e.Unary? || e.SizeofOf? || e.NameofOf? || e.PtrOp?)
    ensures WordsOfTokens(Flatten(e)) == Words(e)
    decreases e, 1
  {
    MarkSpellings();
    hide WordsOfTokens, Spelling, Stops, InnerStops, Canonical, OpLevel;
    match e
    case Named(name, value) =>
      WordsAreTokens(value, init);
      WordsOfName(name, COLON);
      JoinTokens([Token(IDENTIFIER, name), Fixed(COLON)], Flatten(value));
    case Unary(op, right) =>
      WordsAreTokens(right, init);
      WordsBefore(op, Flatten(right));
    case SizeofOf(operand) =>
      WordsAreTokens(operand, init);
      WordsBefore(SIZEOF, Flatten(operand));
    case NameofOf(operand) =>
      WordsAreTokens(operand, init);
      WordsBefore(NAMEOF, Flatten(operand));
    case PtrOp(op, operand) =>
      WordsAreTokens(operand, init);
      WordsBefore(op, Flatten(operand));
  }

  lemma OperatorsPlain(k: TokenType)
    requires IsOp(k) || IsAccess(k)
    ensures IsPlainKind(k)
  {
  }

  lemma {:induction false} WordsOfInfix(e: Expr, init: bool)
    requires WellFormed(e, init) && (e.Binary? || e.Member?)
    ensures WordsOfTokens(Flatten(e)) == Words(e)
    decreases e, 1
  {
    hide WordsOfTokens, Spelling, Stops, InnerStops, Canonical, OpLevel;
    match e
    case Binary(left, op, right) =>
      WordsAreTokens(left, init);
      WordsAreTokens(right, init);
      OperatorsPlain(op);
      WordsBefore(op, Flatten(right));
      JoinTokens(Flatten(left), [Fixed(op)] + Flatten(right));
    case Member(target, access, accessor) =>
      WordsAreTokens(target, init);
      WordsAreTokens(accessor, init);
      OperatorsPlain(access);
      WordsBefore(access, Flatten(accessor));
      JoinTokens(Flatten(target), [Fixed(access)] + Flatten(accessor));
  }

  lemma {:induction false} WordsAreList(es: seq<Expr>, init: bool)
    requires forall e :: e in es ==> WellFormed(e, init)
    ensures WordsOfTokens(FlattenList(es)) == WordsOfList(es)
    decreases es, 0
  {
    MarkSpellings();
    hide Spelling, WellFormed, Flatten, Words;
    if es == [] {
      assert WordsOfTokens([]) == [];
    } else {
      hide WordsOfTokens;
      WordsAreTokens(es[0], init);
      if |es| > 1 {
        WordsAreList(es[1..], init);
        WordsBefore(COMMA, FlattenList(es[1..]));
        JoinTokens(Flatten(es[0]), [Fixed(COMMA)] + FlattenList(es[1..]));
      }
    }
  }

  lemma {:induction false} WordsOfEnclosed(e: Expr, init: bool)
    requires WellFormed(e, init)
    requires e.Group? || e.Abs? || e.AnonInit? || e.StructLiteral? || e.ArrayLiteral?
    ensures WordsOfTokens(Flatten(e)) == Words(e)
    decreases e, 1
  {
    BracketSpellings();
    MarkSpellings();
    hide WordsOfTokens, Spelling, Stops, InnerStops, Canonical, OpLevel;
    match e
    case Group(inner) =>
      WordsAreTokens(inner, init);
      WordsAround(LEFT_PAREN, Flatten(inner), RIGHT_PAREN);
    case Abs(inner) =>
      WordsAreTokens(inner, init);
      WordsAround(PIPE, Flatten(inner), PIPE);
    case AnonInit(elements) =>
      WordsAreList(elements, init);
      WordsAround(LEFT_BRACE, FlattenList(elements), RIGHT_BRACE);
    case StructLiteral(name, elements) =>
      WordsAreList(elements, init);
      WordsOfName(name, LEFT_BRACE);
      OneToken(RIGHT_BRACE);
      var front := [Token(IDENTIFIER, name), Fixed(LEFT_BRACE)];
      JoinTokens(front, FlattenList(elements));
      JoinTokens(front + FlattenList(elements), [Fixed(RIGHT_BRACE)]);
    case ArrayLiteral(elements) =>
      WordsAreList(elements, init);
      WordsAround(LEFT_BRACKET, FlattenList(elements), RIGHT_BRACKET);
  }

  lemma {:induction false} WordsOfPostfix(e: Expr, init: bool)
    requires WellFormed(e, init) && (e.Call? || e.Index? || e.Slice?)
    ensures WordsOfTokens(Flatten(e)) == Words(e)
    decreases e, 1
  {
    BracketSpellings();
    MarkSpellings();
    hide WordsOfTokens, Spelling, Stops, InnerStops, Canonical, OpLevel;
    match e
    case Call(callable, args) =>
      WordsAreTokens(callable, init);
      WordsAreList(args, init);
      WordsAround(LEFT_PAREN, FlattenList(args), RIGHT_PAREN);
      JoinTokens(Flatten(callable), [Fixed(LEFT_PAREN)] + FlattenList(args) + [Fixed(RIGHT_PAREN)]);
    case Index(lhs, index) =>
      WordsAreTokens(lhs, init);
      WordsAreTokens(index, init);
      WordsAround(LEFT_BRACKET, Flatten(index), RIGHT_BRACKET);
      JoinTokens(Flatten(lhs), [Fixed(LEFT_BRACKET)] + Flatten(index) + [Fixed(RIGHT_BRACKET)]);
    case Slice(lhs, start, end) =>
      WordsAreTokens(lhs, init);
      WordsAreMaybe(e, start, init);
      WordsAreMaybe(e, end, init);
      WordsOfSlice(FlattenMaybe(start), FlattenMaybe(end));
      JoinTokens(Flatten(lhs), [Fixed(LEFT_BRACKET)] + FlattenMaybe(start) + [Fixed(COLON)] + FlattenMaybe(end)
                                 + [Fixed(RIGHT_BRACKET)]);
  }

  lemma {:induction false} WordsAreMaybe(e: Expr, m: Maybe, init: bool)
    requires m.Given? ==> WellFormed(m.expr, init) && m.expr < e
    ensures WordsOfTokens(FlattenMaybe(m)) == WordsOfMaybe(m)
    decreases e, 0
  {
    if m.Given? { WordsAreTokens(m.expr, init); }
  }

  lemma WordsOfSlice(a: seq<Token>, b: seq<Token>)
    ensures WordsOfTokens([Fixed(LEFT_BRACKET)] + a + [Fixed(COLON)] + b + [Fixed(RIGHT_BRACKET)])
         == ["["] + WordsOfTokens(a) + [":"] + WordsOfTokens(b) + ["]"]
  {
    BracketSpellings();
    MarkSpellings();
    hide WordsOfTokens, Spelling;
    var front := [Fixed(LEFT_BRACKET)] + a + [Fixed(COLON)];
    WordsAround(LEFT_BRACKET, a, COLON);
    OneToken(RIGHT_BRACKET);
    JoinTokens(front, b);
    JoinTokens(front + b, [Fixed(RIGHT_BRACKET)]);
  }

  // -------------------------------------------------------------- reading words

  /** An expression written in its words is read as that expression. */
  lemma WordsParse(e: Expr, init: bool)
    requires WellFormed(e, init) && IsPrintable(e)
    ensures ParseText(Spaced(Words(e)), init) == Ok(e, [])
  {
    hide WellFormed, IsPrintable, Flatten, Words, ParseText;
    WordsAreTokens(e, init);
    PrintSpaced(Flatten(e));
    SourceReadsBack(e, init);
  }

  /** In a source text, two operators between three operands are ranked by the ladder. */
  lemma LadderText(a: Expr, i: nat, op: (string, TokenType), b: Expr, j: nat, next: (string, TokenType), c: Expr,
                   init: bool)
    requires IsOperand(a, init) && IsOperand(b, init) && IsOperand(c, init)
    requires IsPrintable(a) && IsPrintable(b) && IsPrintable(c)
    requires i < |LADDER| && op in LADDER[i] && j < |LADDER| && next in LADDER[j]
    ensures ParseText(Spaced(Words(a) + [op.0] + Words(b) + [next.0] + Words(c)), init) ==
              Ok(Ranked(a, i, op.1, b, j, next.1, c), [])
  {
    var e := Ranked(a, i, op.1, b, j, next.1, c);
    RankedFormed(a, i, op, b, j, next, c, init);
    RankedPrintable(a, i, op, b, j, next, c, init);
    RankedWords(a, i, op, b, j, next, c);
    hide WellFormed, IsPrintable, IsOperand, Flatten, Words, ParseText;
    WordsParse(e, init);
  }

  lemma RankedPrintable(a: Expr, i: nat, op: (string, TokenType), b: Expr, j: nat, next: (string, TokenType), c: Expr,
                        init: bool)
    requires IsOperand(a, init) && IsOperand(b, init) && IsOperand(c, init)
    requires IsPrintable(a) && IsPrintable(b) && IsPrintable(c)
    requires i < |LADDER| && op in LADDER[i] && j < |LADDER| && next in LADDER[j]
    ensures IsPrintable(Ranked(a, i, op.1, b, j, next.1, c))
  {
    RankedFormed(a, i, op, b, j, next, c, init);
    OperatorPrintable(i, op);
    OperatorPrintable(j, next);
    hide Flatten, Printable, WellFormed, Ranked;
  }

  lemma OperatorPrintable(i: nat, op: (string, TokenType))
    requires i < |LADDER| && op in LADDER[i]
    ensures Printable(Tok(op)) && Spelling(op.1) == op.0
  {
    LadderLevel(i, op);
    hide LADDER;
  }

  lemma RankedWords(a: Expr, i: nat, op: (string, TokenType), b: Expr, j: nat, next: (string, TokenType), c: Expr)
    requires i < |LADDER| && op in LADDER[i] && j < |LADDER| && next in LADDER[j]
    ensures Words(Ranked(a, i, op.1, b, j, next.1, c)) == Words(a) + [op.0] + Words(b) + [next.0] + Words(c)
  {
    OperatorPrintable(i, op);
    OperatorPrintable(j, next);
    hide Spelling, LADDER, Printable, Words;
    if i >= j {
      WordsOfBinary(a, op.1, b);
      WordsOfBinary(Binary(a, op.1, b), next.1, c);
    } else {
      WordsOfBinary(b, next.1, c);
      WordsOfBinary(a, op.1, Binary(b, next.1, c));
      Regrouped(Words(a), op.0, Words(b), next.0, Words(c));
    }
  }

  lemma Regrouped(a: seq<string>, x: string, b: seq<string>, y: string, c: seq<string>)
    ensures a + [x] + (b + [y] + c) == a + [x] + b + [y] + c
  {
  }

  lemma WordsOfBinary(left: Expr, op: TokenType, right: Expr)
    ensures Words(Binary(left, op, right)) == Words(left) + [Spelling(op)] + Words(right)
  {
  }
}
