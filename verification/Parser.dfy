/**
 The recursive-descent expression parser, driving the lexer's window. Every method is proved to
 agree with the parser function of module Expressions on the tokens of the source that remain.
 */
module ExpressionParser {
  import opened Tokens
  import opened Lexing
  import opened SourceLexer
  import opened TokenStream
  import opened Expressions
  import opened ParserSteps

  /** A result, or the error that ends the parse. */
  datatype Outcome<+T> = Done(value: T) | Raised(error: ParseError) {
    predicate IsFailure() { Raised? }

    function PropagateFailure<U>(): Outcome<U>
      requires Raised?
    {
      Raised(error)
    }

    function Extract(): T
      requires Done?
    {
      value
    }
  }

  class Parser {
    const lexer: Lexer
    /** Whether a brace after a name starts a struct literal. */
    const canInitialize: bool

    constructor (lexer: Lexer, canInitialize: bool)
      requires lexer.Valid()
      ensures this.lexer == lexer && this.canInitialize == canInitialize
    {
      this.lexer, this.canInitialize := lexer, canInitialize;
    }

    ghost predicate Valid()
      reads lexer, lexer.reader, lexer.buffer, lexer.buffer.memory
    {
      lexer.Valid()
    }

    /** The tokens of the source from the current one on. */
    ghost function Rest(): seq<Token>
      reads lexer
    {
      var pos, tokens := Max(lexer.Cursor(), 0), TokensOf(lexer.reader.source);
      if pos <= |tokens| then tokens[pos..] else []
    }

    /** An unknown character follows the tokens of the source. */
    ghost predicate Broken() {
      !Clean(lexer.reader.source)
    }

    /** Where the cursor has come to the end of the tokens, the end has been read. */
    lemma EndSeen()
      requires Valid() && lexer.Cursor() >= 0 && Rest() == []
      ensures !Broken()
    {
      hide LexOne, TokensOf;
      lexer.ScannedAre();
    }

    /**
     The outcome and the cursor are those of the specification. An unknown character is reported
     only where there is one, and never once the specification leaves a token unread.
     */
    ghost predicate Agrees(r: Outcome<Expr>, spec: Parsed)
      reads lexer, lexer.reader, lexer.buffer, lexer.buffer.memory
    {
      match r
      case Done(e) => Valid() && spec == Ok(e, Rest())
      case Raised(BadCharacter) => Broken() && (spec.Ok? ==> spec.rest == [])
      case Raised(error) => spec == Fail(error)
    }

    ghost predicate AgreesList(r: Outcome<seq<Expr>>, spec: ParsedList)
      reads lexer, lexer.reader, lexer.buffer, lexer.buffer.memory
    {
      match r
      case Done(es) => Valid() && spec == OkList(es, Rest())
      case Raised(BadCharacter) => Broken() && (spec.OkList? ==> spec.after == [])
      case Raised(error) => spec == FailList(error)
    }

    // ---------------------------------------------------------------- tokens

    method PeekKind() returns (r: Outcome<TokenType>)
      requires Valid()
      modifies lexer, lexer.reader, lexer.buffer, lexer.buffer.memory
      ensures match r
              case Done(kind) => Valid() && Rest() == old(Rest()) && kind == Peek(Rest())
              case Raised(error) => error == BadCharacter && Broken() && old(Rest()) == []
    {
      hide Lexes, TokenAt, TokensOf, Clean, Lexer.Valid;
      ghost var c := Max(lexer.Cursor(), 0);
      TokensOfAt(lexer.reader.source, c);
      var ok, l := lexer.Peek();
      r := if ok then Done(l.kind) else Raised(BadCharacter);
    }

    method Match(kind: TokenType) returns (r: Outcome<bool>)
      requires Valid() && kind != EOF
      modifies lexer, lexer.reader, lexer.buffer, lexer.buffer.memory
      ensures match r
              case Done(matched) =>
                && Valid() && (matched <==> Peek(old(Rest())) == kind)
                && Rest() == if matched then old(Rest())[1..] else old(Rest())
              case Raised(error) =>
                && error == BadCharacter && Broken()
                && (old(Rest()) == [] || (|old(Rest())| == 1 && Peek(old(Rest())) == kind))
    {
      hide Lexes, TokenAt, TokensOf, Clean, Lexer.Valid;
      ghost var c := Max(lexer.Cursor(), 0);
      TokensOfAt(lexer.reader.source, c);
      TokensOfAt(lexer.reader.source, c + 1);
      var ok, matched := lexer.Match(kind);
      r := if ok then Done(matched) else Raised(BadCharacter);
    }

    /** Moves past the current token, which is not the end, and gives it. */
    method Advance() returns (r: Outcome<Token>)
      requires Valid() && Rest() != []
      modifies lexer, lexer.reader, lexer.buffer, lexer.buffer.memory
      ensures match r
              case Done(token) => Valid() && token == old(Rest())[0] && Rest() == old(Rest())[1..]
              case Raised(error) => error == BadCharacter && Broken() && |old(Rest())| == 1
    {
      hide Lexes, TokenAt, TokensOf, Clean, Lexer.Valid;
      ghost var c := Max(lexer.Cursor(), 0);
      TokensOfAt(lexer.reader.source, c);
      TokensOfAt(lexer.reader.source, c + 1);
      var ok, l := lexer.Peek();
      if !ok { return Raised(BadCharacter); }
      ok, l := lexer.Advance();
      if !ok { return Raised(BadCharacter); }
      l := lexer.PeekLast();
      r := Done(lexer.TokenOf(l));
    }

    // ------------------------------------------------------------ productions

    method Expression() returns (r: Outcome<Expr>)
      requires Valid()
      modifies lexer, lexer.reader, lexer.buffer, lexer.buffer.memory
      ensures Agrees(r, ParseLevel(old(Rest()), 0, canInitialize))
      decreases |Rest()|, 21
    {
      r := ParseRule(0);
    }

    /** The rule of a level of the ladder: a binary rule, or the unary rule below all of them. */
    method ParseRule(level: nat) returns (r: Outcome<Expr>)
      requires Valid() && level <= 8
      modifies lexer, lexer.reader, lexer.buffer, lexer.buffer.memory
      ensures Agrees(r, ParseLevel(old(Rest()), level, canInitialize))
      decreases |Rest()|, 20 - level, 1
    {
      if level == 8 {
        r := Unary();
      } else {
        r := BinaryRule(level);
      }
    }

    /** Folds operators of one level to the left. */
    method BinaryRule(level: nat) returns (r: Outcome<Expr>)
      requires Valid() && level < 8
      modifies lexer, lexer.reader, lexer.buffer, lexer.buffer.memory
      ensures Agrees(r, ParseLevel(old(Rest()), level, canInitialize))
      decreases |Rest()|, 20 - level, 0
    {
      hide OpLevel, ParseFold, ParseUnary, Valid, Rest;
      EofIsNoOp();
      ghost var start := Rest();
      var expr :- ParseRule(level + 1);
      FoldEnds(expr, Rest(), level, canInitialize);
      var kind :- PeekKind();
      while OpLevel(kind) == level
        invariant Valid() && kind == Peek(Rest()) && |Rest()| < |start|
        invariant ParseLevel(start, level, canInitialize) == ParseFold(expr, Rest(), level, canInitialize)
        decreases |Rest()|
      {
        ghost var ts := Rest();
        FoldEnds(expr, ts, level, canInitialize);
        FoldRight(expr, ts, level, canInitialize);
        var right :- RightOperand(level);
        FoldStep(expr, ts, level, right, Rest(), canInitialize);
        expr := Binary(expr, kind, right);
        FoldEnds(expr, Rest(), level, canInitialize);
        kind :- PeekKind();
      }
      FoldEnds(expr, Rest(), level, canInitialize);
      return Done(expr);
    }

    /** Moves past an operator and reads the operand of the next level after it. */
    method RightOperand(level: nat) returns (r: Outcome<Expr>)
      requires Valid() && level < 8 && Rest() != []
      modifies lexer, lexer.reader, lexer.buffer, lexer.buffer.memory
      ensures Agrees(r, ParseLevel(old(Rest())[1..], level + 1, canInitialize))
      decreases |Rest()|, 0
    {
      hide ParseLevel, Valid, Rest;
      var _ :- Advance();
      r := ParseRule(level + 1);
    }

    method Unary() returns (r: Outcome<Expr>)
      requires Valid()
      modifies lexer, lexer.reader, lexer.buffer, lexer.buffer.memory
      ensures Agrees(r, ParseUnary(old(Rest()), canInitialize))
      decreases |Rest()|, 11
    {
      hide ParsePrimary, Valid, Rest;
      var kind :- PeekKind();
      if IsPrefix(kind) {
        var op :- Advance();
        var right :- Unary();
        return Done(Expr.Unary(op.kind, right));
      }
      r := Primary();
    }

    /** An inner expression, brackets after it, and an access or a call after those. */
    method Primary() returns (r: Outcome<Expr>)
      requires Valid()
      modifies lexer, lexer.reader, lexer.buffer, lexer.buffer.memory
      ensures Agrees(r, ParsePrimary(old(Rest()), canInitialize))
      decreases |Rest()|, 10
    {
      hide ParseLevel, ParseInner, ParsePostfix, ParseList, ParseSliceEnd, Valid, Rest;
      ghost var start, init := Rest(), canInitialize;
      var kind :- PeekKind();
      if StartsInner(kind) {
        var lhs :- PrimaryInner();
        PostfixOfNothing(lhs, init);
        kind :- PeekKind();
        while kind == LEFT_BRACKET
          invariant Valid() && kind == Peek(Rest()) && |Rest()| < |start|
          invariant ParsePrimary(start, init) == ParsePostfix(lhs, Rest(), init)
          decreases |Rest()|
        {
          lhs :- Bracket(lhs);
          PostfixOfNothing(lhs, init);
          kind :- PeekKind();
        }
        r := AfterBrackets(lhs, kind);
        return;
      }
      if IsLiteral(kind) {
        var token :- Advance();
        return Done(Literal(token));
      }
      return Raised(Unexpected);
    }

    /** An access or a call, or the end of a primary. */
    method AfterBrackets(lhs: Expr, kind: TokenType) returns (r: Outcome<Expr>)
      requires Valid() && kind == Peek(Rest()) != LEFT_BRACKET
      modifies lexer, lexer.reader, lexer.buffer, lexer.buffer.memory
      ensures Agrees(r, ParsePostfix(lhs, old(Rest()), canInitialize))
      decreases |Rest()|, 22
    {
      hide ParsePrimary, ParseList, Valid, Rest;
      if IsAccess(kind) {
        var access :- Advance();
        var accessor :- Primary();
        return Done(Member(lhs, access.kind, accessor));
      }
      if kind == LEFT_PAREN {
        var _ :- Advance();
        var args :- ListUpTo(RIGHT_PAREN);
        var closed :- Match(RIGHT_PAREN);
        return if closed then Done(Call(lhs, args)) else Raised(Unexpected);
      }
      return Done(lhs);
    }

    /** What a part of a primary comes to: the postfixes of the new left side are still to be read. */
    ghost predicate Continues(r: Outcome<Expr>, spec: Parsed)
      reads lexer, lexer.reader, lexer.buffer, lexer.buffer.memory
    {
      match r
      case Done(e) => Valid() && spec == ParsePostfix(e, Rest(), canInitialize)
      case Raised(BadCharacter) => Broken() && (spec.Ok? ==> spec.rest == [])
      case Raised(error) => spec == Fail(error)
    }

    /** One bracket of a primary: an index or a slice. */
    method Bracket(lhs: Expr) returns (r: Outcome<Expr>)
      requires Valid() && Peek(Rest()) == LEFT_BRACKET
      modifies lexer, lexer.reader, lexer.buffer, lexer.buffer.memory
      ensures Continues(r, ParsePostfix(lhs, old(Rest()), canInitialize))
      ensures r.Done? ==> |Rest()| < |old(Rest())|
      decreases |Rest()|, 9
    {
      hide ParsePostfix, ParseInside, Valid, Rest;
      BracketCases(lhs, Rest(), canInitialize);
      var _ :- Advance();
      r := Inside(lhs);
    }

    /** What is in a bracket: a colon starts a slice without a start. */
    method Inside(lhs: Expr) returns (r: Outcome<Expr>)
      requires Valid()
      modifies lexer, lexer.reader, lexer.buffer, lexer.buffer.memory
      ensures Continues(r, ParseInside(lhs, old(Rest()), canInitialize))
      ensures r.Done? ==> |Rest()| <= |old(Rest())|
      decreases |Rest()|, 25
    {
      hide ParsePostfix, ParseSliceEnd, ParseOpened, Valid, Rest;
      var kind :- PeekKind();
      if kind == COLON {
        var _ :- Advance();
        r := SliceEnd(lhs, Absent);
      } else {
        r := AfterOpening(lhs);
      }
    }

    /** The expression in a bracket, and what follows it. */
    method AfterOpening(lhs: Expr) returns (r: Outcome<Expr>)
      requires Valid()
      modifies lexer, lexer.reader, lexer.buffer, lexer.buffer.memory
      ensures Continues(r, ParseOpened(lhs, old(Rest()), canInitialize))
      ensures r.Done? ==> |Rest()| <= |old(Rest())|
      decreases |Rest()|, 24
    {
      hide ParseLevel, ParseBracket, Valid, Rest;
      var index :- Expression();
      r := AfterIndex(lhs, index);
    }

    /** The rest of a bracket, after the expression in it. */
    method AfterIndex(lhs: Expr, index: Expr) returns (r: Outcome<Expr>)
      requires Valid()
      modifies lexer, lexer.reader, lexer.buffer, lexer.buffer.memory
      ensures Continues(r, ParseBracket(lhs, index, old(Rest()), canInitialize))
      ensures r.Done? ==> |Rest()| <= |old(Rest())|
      decreases |Rest()|, 23
    {
      hide ParsePostfix, ParseSliceEnd, Valid, Rest;
      PostfixOfNothing(Index(lhs, index), canInitialize);
      var kind :- PeekKind();
      if kind == COLON {
        var _ :- Advance();
        r := SliceEnd(lhs, Given(index));
      } else if kind == COMMA {
        r := Raised(NotModelled);
      } else if kind == RIGHT_BRACKET {
        var _ :- Advance();
        r := Done(Index(lhs, index));
      } else {
        r := Raised(Unexpected);
      }
    }

    /** The end of a slice, after its colon. */
    method SliceEnd(lhs: Expr, start: Maybe) returns (r: Outcome<Expr>)
      requires Valid()
      modifies lexer, lexer.reader, lexer.buffer, lexer.buffer.memory
      ensures Continues(r, ParseSliceEnd(lhs, start, old(Rest()), canInitialize))
      ensures r.Done? ==> |Rest()| <= |old(Rest())|
      decreases |Rest()|, 22
    {
      hide ParseLevel, ParsePostfix, ParseSliceEnd, Valid, Rest;
      SliceEndCases(lhs, start, Rest(), canInitialize);
      var end := Absent;
      var kind :- PeekKind();
      if kind != RIGHT_BRACKET {
        var e :- Expression();
        end := Given(e);
      }
      PostfixOfNothing(Slice(lhs, start, end), canInitialize);
      var closed :- Match(RIGHT_BRACKET);
      return if closed then Done(Slice(lhs, start, end)) else Raised(Unexpected);
    }

    /** Expressions up to a closing token, which is left in place; a comma may trail. */
    method ListUpTo(close: TokenType) returns (r: Outcome<seq<Expr>>)
      requires Valid() && close != EOF
      modifies lexer, lexer.reader, lexer.buffer, lexer.buffer.memory
      ensures AgreesList(r, ParseList(old(Rest()), close, canInitialize))
      decreases |Rest()|, 22
    {
      hide ParseLevel, OpLevel, ParseList, PrependTrees, Valid, Rest;
      ghost var start, init := Rest(), canInitialize;
      var exprs := [];
      PrependNothing(ParseList(start, close, init));
      var kind :- PeekKind();
      while kind != close
        invariant Valid() && kind == Peek(Rest()) && |Rest()| <= |start|
        invariant ParseList(start, close, init) == PrependTrees(exprs, ParseList(Rest(), close, init))
        decreases |Rest()|
      {
        ghost var ts, before := Rest(), exprs;
        ListCases(ts, close, init);
        PrependCases(before);
        var e :- Expression();
        exprs := exprs + [e];
        PrependOne(e);
        var more :- Match(COMMA);
        if !more { return Done(exprs); }
        PrependAssociates(before, [e], ParseList(Rest(), close, init));
        kind :- PeekKind();
      }
      ListCases(Rest(), close, init);
      PrependCases(exprs);
      assert exprs + [] == exprs;
      return Done(exprs);
    }

    /** The elements of an array literal. */
    method Elements() returns (r: Outcome<seq<Expr>>)
      requires Valid()
      modifies lexer, lexer.reader, lexer.buffer, lexer.buffer.memory
      ensures AgreesList(r, ParseElements(old(Rest()), canInitialize))
      decreases |Rest()|, 22
    {
      hide ParseLevel, OpLevel, ParseElements, PrependTrees, Valid, Rest;
      ghost var start, init := Rest(), canInitialize;
      var exprs := [];
      PrependNothing(ParseElements(start, init));
      while true
        invariant Valid() && |Rest()| <= |start|
        invariant ParseElements(start, init) == PrependTrees(exprs, ParseElements(Rest(), init))
        decreases |Rest()|
      {
        ghost var ts, before := Rest(), exprs;
        ElementsCases(ts, init);
        PrependCases(before);
        var e :- Expression();
        exprs := exprs + [e];
        PrependOne(e);
        var more :- Match(COMMA);
        if !more { return Done(exprs); }
        PrependAssociates(before, [e], ParseElements(Rest(), init));
      }
    }

    /** A name stands alone, or names an argument or a struct literal. */
    method AfterName(name: string) returns (r: Outcome<Expr>)
      requires Valid()
      modifies lexer, lexer.reader, lexer.buffer, lexer.buffer.memory
      ensures Agrees(r, ParseIdentifier([Token(IDENTIFIER, name)] + old(Rest()), canInitialize))
      decreases |Rest()|, 23
    {
      hide ParseLevel, ParseList, OpLevel, Valid, Rest;
      assert ([Token(IDENTIFIER, name)] + Rest())[1..] == Rest();
      var named :- Match(COLON);
      if named {
        var value :- Expression();
        return Done(Named(name, value));
      }
      if canInitialize {
        var braced :- Match(LEFT_BRACE);
        if braced {
          var elements :- ListUpTo(RIGHT_BRACE);
          var closed :- Match(RIGHT_BRACE);
          return if closed then Done(StructLiteral(name, elements)) else Raised(Unexpected);
        }
      }
      return Done(Symbol(name));
    }

    /** An expression in parentheses or between bars, after the opening token. */
    method Enclosed(token: Token) returns (r: Outcome<Expr>)
      requires Valid() && (token.kind == LEFT_PAREN || token.kind == PIPE)
      modifies lexer, lexer.reader, lexer.buffer, lexer.buffer.memory
      ensures Agrees(r, ParseEnclosed([token] + old(Rest()), canInitialize))
      decreases |Rest()|, 23
    {
      hide ParseLevel, OpLevel, Valid, Rest;
      assert ([token] + Rest())[1..] == Rest();
      var inner :- Expression();
      if token.kind == LEFT_PAREN {
        var closed :- Match(RIGHT_PAREN);
        return if closed then Done(Group(inner)) else Raised(Unexpected);
      }
      var closed :- Match(PIPE);
      return if closed then Done(Abs(inner)) else Raised(Unexpected);
    }

    /** A list in braces or an array literal, after the opening token. */
    method Braced(token: Token) returns (r: Outcome<Expr>)
      requires Valid() && (token.kind == LEFT_BRACE || token.kind == LEFT_BRACKET)
      modifies lexer, lexer.reader, lexer.buffer, lexer.buffer.memory
      ensures Agrees(r, ParseBraced([token] + old(Rest()), canInitialize))
      decreases |Rest()|, 23
    {
      hide ParseList, ParseElements, OpLevel, Valid, Rest;
      assert ([token] + Rest())[1..] == Rest();
      if token.kind == LEFT_BRACE {
        var elements :- ListUpTo(RIGHT_BRACE);
        var closed :- Match(RIGHT_BRACE);
        return if closed then Done(AnonInit(elements)) else Raised(Unexpected);
      }
      var elements :- Elements();
      var closed :- Match(RIGHT_BRACKET);
      return if closed then Done(ArrayLiteral(elements)) else Raised(Unexpected);
    }

    /** A bracketed, named, prefixed or stand-alone inner expression. */
    method PrimaryInner() returns (r: Outcome<Expr>)
      requires Valid() && StartsInner(Peek(Rest()))
      modifies lexer, lexer.reader, lexer.buffer, lexer.buffer.memory
      ensures Agrees(r, ParseInner(old(Rest()), canInitialize))
      decreases |Rest()|, 9
    {
      hide ParseLevel, ParsePrimary, ParseEnclosed, ParseBraced, OpLevel, ParseIdentifier, Valid, Rest;
      ghost var start := Rest();
      var token :- Advance();
      var kind := token.kind;
      assert [token] + Rest() == start;
      if kind == LEFT_PAREN || kind == PIPE {
        r := Enclosed(token);
        return;
      }
      if kind == IDENTIFIER {
        r := AfterName(token.lexeme);
        return;
      }
      if kind == SIZEOF || kind == NAMEOF {
        var operand :- Expression();
        return Done(if kind == SIZEOF then SizeofOf(operand) else NameofOf(operand));
      }
      if kind == CAST { return Raised(NotModelled); }
      if IsAttribute(kind) { return Done(Keyword(kind)); }
      if IsPtrOp(kind) {
        var operand :- Primary();
        return Done(PtrOp(kind, operand));
      }
      if kind == ELLIPSE { return Done(Packed); }
      r := Braced(token);
    }
  }

  lemma EofIsNoOp()
    ensures OpLevel(EOF) == 8
  {
  }

  /** A right operand that fails or ends the tokens does so for the whole fold. */
  lemma FoldRight(left: Expr, ts: seq<Token>, level: nat, init: bool)
    requires level < 8 && OpLevel(Peek(ts)) == level && ts != []
    ensures var right, r := ParseLevel(ts[1..], level + 1, init), ParseFold(left, ts, level, init);
            r.Ok? ==> right.Ok? && |r.rest| <= |right.rest|
  {
    hide OpLevel;
  }

  lemma PostfixOfNothing(lhs: Expr, init: bool)
    ensures ParsePostfix(lhs, [], init) == Ok(lhs, [])
  {
  }

  lemma PrependOne(e: Expr)
    ensures forall r: ParsedList :: PrependTrees([e], r).OkList? ==> r.OkList? && PrependTrees([e], r).after == r.after
  {
  }

  function PrependTrees(es: seq<Expr>, r: ParsedList): ParsedList {
    if r.OkList? then OkList(es + r.trees, r.after) else r
  }

  lemma PrependNothing(r: ParsedList)
    ensures PrependTrees([], r) == r
  {
    if r.OkList? { assert [] + r.trees == r.trees; }
  }

  lemma PrependAssociates(a: seq<Expr>, b: seq<Expr>, r: ParsedList)
    ensures PrependTrees(a, PrependTrees(b, r)) == PrependTrees(a + b, r)
  {
    if r.OkList? { assert a + (b + r.trees) == a + b + r.trees; }
  }

  function ParseInside(lhs: Expr, ts: seq<Token>, init: bool): (r: Parsed)
    ensures r.Ok? ==> |r.rest| <= |ts|
  {
    if Peek(ts) == COLON then ParseSliceEnd(lhs, Absent, ts[1..], init) else ParseOpened(lhs, ts, init)
  }

  function ParseOpened(lhs: Expr, ts: seq<Token>, init: bool): (r: Parsed)
    ensures r.Ok? ==> |r.rest| <= |ts|
  {
    var i := ParseLevel(ts, 0, init);
    if i.Fail? then i else ParseBracket(lhs, i.tree, i.rest, init)
  }

  /** What follows the expression in a bracket. */
  function ParseBracket(lhs: Expr, index: Expr, ts: seq<Token>, init: bool): (r: Parsed)
    ensures r.Ok? ==> |r.rest| <= |ts|
  {
    if Peek(ts) == COLON then ParseSliceEnd(lhs, Given(index), ts[1..], init)
    else if Peek(ts) == COMMA then Fail(NotModelled)
    else if Peek(ts) == RIGHT_BRACKET then ParsePostfix(Index(lhs, index), ts[1..], init)
    else Fail(Unexpected)
  }

  lemma BracketCases(lhs: Expr, ts: seq<Token>, init: bool)
    requires ts != [] && Peek(ts) == LEFT_BRACKET
    ensures ParsePostfix(lhs, ts, init) == ParseInside(lhs, ts[1..], init)
  {
    hide ParseLevel, ParsePrimary, ParseSliceEnd, ParseList;
    if Peek(ts[1..]) == COLON { assert ts[2..] == ts[1..][1..]; }
  }

  lemma ElementsCases(ts: seq<Token>, init: bool)
    ensures var e := ParseLevel(ts, 0, init);
            ParseElements(ts, init) ==
              if e.Fail? then FailList(e.error)
              else if Peek(e.rest) == COMMA then PrependTrees([e.tree], ParseElements(e.rest[1..], init))
              else OkList([e.tree], e.rest)
  {
  }

  lemma ListCases(ts: seq<Token>, close: TokenType, init: bool)
    ensures var e := ParseLevel(ts, 0, init);
            ParseList(ts, close, init) ==
              if Peek(ts) == close then OkList([], ts)
              else if e.Fail? then FailList(e.error)
              else if Peek(e.rest) == COMMA then PrependTrees([e.tree], ParseList(e.rest[1..], close, init))
              else OkList([e.tree], e.rest)
  {
  }

  lemma SliceEndCases(lhs: Expr, start: Maybe, ts: seq<Token>, init: bool)
    ensures var e := ParseLevel(ts, 0, init);
            ParseSliceEnd(lhs, start, ts, init) ==
              if Peek(ts) == RIGHT_BRACKET then ParsePostfix(Slice(lhs, start, Absent), ts[1..], init)
              else if e.Fail? then e
              else if Peek(e.rest) == RIGHT_BRACKET then
                ParsePostfix(Slice(lhs, start, Given(e.tree)), e.rest[1..], init)
              else Fail(Unexpected)
  {
    hide ParseLevel, ParsePostfix;
  }

  lemma PrependCases(es: seq<Expr>)
    ensures forall error :: PrependTrees(es, FailList(error)) == FailList(error)
    ensures forall trees, after :: PrependTrees(es, OkList(trees, after)) == OkList(es + trees, after)
  {
  }
}
