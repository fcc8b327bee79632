/**
 Single steps of the parser: what each production does once its parts have been read. Each lemma
 reads one branch of a parser function back, so that a proof that needs the branch does not have
 to unfold the whole function. They keep proofs cheap and say nothing new.
 */
module ParserSteps {
  import opened Tokens
  import opened Expressions

  lemma LevelStep(ts: seq<Token>, level: nat, first: Expr, rest: seq<Token>, init: bool)
    requires level < 8 && ParseLevel(ts, level + 1, init) == Ok(first, rest)
    ensures ParseLevel(ts, level, init) == ParseFold(first, rest, level, init)
  {
  }

  lemma FoldStep(left: Expr, ts: seq<Token>, level: nat, right: Expr, rest: seq<Token>, init: bool)
    requires level < 8 && OpLevel(Peek(ts)) == level && ts != []
    requires ParseLevel(ts[1..], level + 1, init) == Ok(right, rest)
    ensures ParseFold(left, ts, level, init) == ParseFold(Binary(left, Peek(ts), right), rest, level, init)
  {
    hide OpLevel;
  }

  lemma FoldEnds(left: Expr, ts: seq<Token>, level: nat, init: bool)
    requires level < 8 && (OpLevel(Peek(ts)) == level ==> ts != [])
    ensures OpLevel(Peek(ts)) != level ==> ParseFold(left, ts, level, init) == Ok(left, ts)
    ensures OpLevel(Peek(ts)) == level && ParseLevel(ts[1..], level + 1, init).Fail? ==>
              ParseFold(left, ts, level, init) == ParseLevel(ts[1..], level + 1, init)
  {
    hide OpLevel;
  }

  lemma PrefixStep(ts: seq<Token>, right: Expr, rest: seq<Token>, init: bool)
    requires ts != [] && IsPrefix(Peek(ts)) && ParseUnary(ts[1..], init) == Ok(right, rest)
    ensures ParseUnary(ts, init) == Ok(Unary(Peek(ts), right), rest)
  {
  }

  lemma IndexStep(lhs: Expr, ts: seq<Token>, index: Expr, rest: seq<Token>, init: bool)
    requires ts != [] && Peek(ts) == LEFT_BRACKET && Peek(ts[1..]) != COLON
    requires ParseLevel(ts[1..], 0, init) == Ok(index, rest) && Peek(rest) == RIGHT_BRACKET
    ensures ParsePostfix(lhs, ts, init) == ParsePostfix(Index(lhs, index), rest[1..], init)
  {
    hide ParseLevel, ParsePrimary, ParseSliceEnd, ParseList;
  }

  lemma SliceStep(lhs: Expr, ts: seq<Token>, start: Expr, rest: seq<Token>, init: bool)
    requires ts != [] && Peek(ts) == LEFT_BRACKET && Peek(ts[1..]) != COLON
    requires ParseLevel(ts[1..], 0, init) == Ok(start, rest) && Peek(rest) == COLON
    ensures ParsePostfix(lhs, ts, init) == ParseSliceEnd(lhs, Given(start), rest[1..], init)
  {
  }

  lemma OpenSliceStep(lhs: Expr, ts: seq<Token>, init: bool)
    requires |ts| >= 2 && Peek(ts) == LEFT_BRACKET && Peek(ts[1..]) == COLON
    ensures ParsePostfix(lhs, ts, init) == ParseSliceEnd(lhs, Absent, ts[2..], init)
  {
  }

  lemma SliceEndStep(lhs: Expr, start: Maybe, ts: seq<Token>, end: Expr, rest: seq<Token>, init: bool)
    requires Peek(ts) != RIGHT_BRACKET && ParseLevel(ts, 0, init) == Ok(end, rest) && Peek(rest) == RIGHT_BRACKET
    ensures ParseSliceEnd(lhs, start, ts, init) == ParsePostfix(Slice(lhs, start, Given(end)), rest[1..], init)
  {
  }

  lemma OpenSliceEndStep(lhs: Expr, start: Maybe, ts: seq<Token>, init: bool)
    requires Peek(ts) == RIGHT_BRACKET
    ensures ParseSliceEnd(lhs, start, ts, init) == ParsePostfix(Slice(lhs, start, Absent), ts[1..], init)
  {
  }

  lemma AccessStep(lhs: Expr, ts: seq<Token>, accessor: Expr, rest: seq<Token>, init: bool)
    requires ts != [] && IsAccess(Peek(ts)) && ParsePrimary(ts[1..], init) == Ok(accessor, rest)
    ensures ParsePostfix(lhs, ts, init) == Ok(Member(lhs, Peek(ts), accessor), rest)
  {
  }

  lemma CallStep(lhs: Expr, ts: seq<Token>, args: seq<Expr>, after: seq<Token>, init: bool)
    requires ts != [] && Peek(ts) == LEFT_PAREN
    requires ParseList(ts[1..], RIGHT_PAREN, init) == OkList(args, after) && Peek(after) == RIGHT_PAREN
    ensures ParsePostfix(lhs, ts, init) == Ok(Call(lhs, args), after[1..])
  {
  }

  lemma PrimaryStep(ts: seq<Token>, inner: Expr, rest: seq<Token>, init: bool)
    requires StartsInner(Peek(ts)) && ParseInner(ts, init) == Ok(inner, rest)
    ensures ParsePrimary(ts, init) == ParsePostfix(inner, rest, init)
  {
  }

  lemma EnclosedStep(ts: seq<Token>, inner: Expr, rest: seq<Token>, init: bool)
    requires Peek(ts) == LEFT_PAREN || Peek(ts) == PIPE
    requires ParseLevel(ts[1..], 0, init) == Ok(inner, rest)
    requires Peek(rest) == if Peek(ts) == LEFT_PAREN then RIGHT_PAREN else PIPE
    ensures ParseInner(ts, init) == Ok(if Peek(ts) == LEFT_PAREN then Group(inner) else Abs(inner), rest[1..])
  {
  }

  lemma NamedStep(ts: seq<Token>, value: Expr, rest: seq<Token>, init: bool)
    requires |ts| >= 2 && Peek(ts) == IDENTIFIER && Peek(ts[1..]) == COLON
    requires ParseLevel(ts[2..], 0, init) == Ok(value, rest)
    ensures ParseInner(ts, init) == Ok(Named(ts[0].lexeme, value), rest)
  {
  }

  lemma StructStep(ts: seq<Token>, elements: seq<Expr>, after: seq<Token>)
    requires |ts| >= 2 && Peek(ts) == IDENTIFIER && Peek(ts[1..]) == LEFT_BRACE
    requires ParseList(ts[2..], RIGHT_BRACE, true) == OkList(elements, after) && Peek(after) == RIGHT_BRACE
    ensures ParseInner(ts, true) == Ok(StructLiteral(ts[0].lexeme, elements), after[1..])
  {
  }

  lemma SymbolStep(ts: seq<Token>, init: bool)
    requires |ts| >= 1 && Peek(ts) == IDENTIFIER
    requires Peek(ts[1..]) != COLON && !(init && Peek(ts[1..]) == LEFT_BRACE)
    ensures ParseInner(ts, init) == Ok(Symbol(ts[0].lexeme), ts[1..])
  {
  }

  lemma OperatorStep(ts: seq<Token>, operand: Expr, rest: seq<Token>, init: bool)
    requires Peek(ts) == SIZEOF || Peek(ts) == NAMEOF
    requires ParseLevel(ts[1..], 0, init) == Ok(operand, rest)
    ensures ParseInner(ts, init) == Ok(if Peek(ts) == SIZEOF then SizeofOf(operand) else NameofOf(operand), rest)
  {
  }

  lemma PtrOpStep(ts: seq<Token>, operand: Expr, rest: seq<Token>, init: bool)
    requires ts != [] && IsPtrOp(Peek(ts)) && ParsePrimary(ts[1..], init) == Ok(operand, rest)
    ensures ParseInner(ts, init) == Ok(PtrOp(Peek(ts), operand), rest)
  {
  }

  lemma AnonStep(ts: seq<Token>, elements: seq<Expr>, after: seq<Token>, init: bool)
    requires Peek(ts) == LEFT_BRACE
    requires ParseList(ts[1..], RIGHT_BRACE, init) == OkList(elements, after) && Peek(after) == RIGHT_BRACE
    ensures ParseInner(ts, init) == Ok(AnonInit(elements), after[1..])
  {
  }

  lemma ArrayStep(ts: seq<Token>, elements: seq<Expr>, after: seq<Token>, init: bool)
    requires Peek(ts) == LEFT_BRACKET
    requires ParseElements(ts[1..], init) == OkList(elements, after) && Peek(after) == RIGHT_BRACKET
    ensures ParseInner(ts, init) == Ok(ArrayLiteral(elements), after[1..])
  {
  }

  lemma LeafStep(ts: seq<Token>, init: bool)
    requires ts != [] && (IsAttribute(Peek(ts)) || Peek(ts) == ELLIPSE)
    ensures ParseInner(ts, init) == Ok(if Peek(ts) == ELLIPSE then Packed else Keyword(Peek(ts)), ts[1..])
  {
  }

  lemma ListEnd(ts: seq<Token>, close: TokenType, init: bool)
    requires Peek(ts) == close
    ensures ParseList(ts, close, init) == OkList([], ts)
  {
  }

  lemma ListStep(ts: seq<Token>, close: TokenType, e: Expr, rest: seq<Token>, init: bool)
    requires Peek(ts) != close && ParseLevel(ts, 0, init) == Ok(e, rest)
    ensures Peek(rest) != COMMA ==> ParseList(ts, close, init) == OkList([e], rest)
    ensures Peek(rest) == COMMA ==>
              var more := ParseList(rest[1..], close, init);
              more.OkList? ==> ParseList(ts, close, init) == OkList([e] + more.trees, more.after)
  {
  }

  lemma ElementsStep(ts: seq<Token>, e: Expr, rest: seq<Token>, init: bool)
    requires ParseLevel(ts, 0, init) == Ok(e, rest)
    ensures Peek(rest) != COMMA ==> ParseElements(ts, init) == OkList([e], rest)
    ensures Peek(rest) == COMMA ==>
              var more := ParseElements(rest[1..], init);
              more.OkList? ==> ParseElements(ts, init) == OkList([e] + more.trees, more.after)
  {
  }
}
