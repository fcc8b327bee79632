/** The expression parser and the flattener as inverses of each other. */
module ParserTheorems {
  import opened Tokens
  import opened Expressions
  import opened ParserSteps
  import opened ParserInverse
  import opened ParserSound

  /**
   The tree the parser returns is well formed and flattens to the tokens consumed, minus the
   commas that trail in a list: to exactly the tokens consumed if and only if no comma trails.
   */
  lemma ParseConsumes(ts: seq<Token>, init: bool)
    requires AllCanonical(ts) && ParseLevel(ts, 0, init).Ok?
    ensures var r := ParseLevel(ts, 0, init);
            && WellFormed(r.tree, init) && Stops(r.tree, Peek(r.rest), init) && !IsOp(Peek(r.rest))
            && Suffix(ts, r.rest)
            && Flatten(r.tree) == Strip(Taken(ts, r.rest))
            && (Flatten(r.tree) == Taken(ts, r.rest) <==> NoTrailingComma(Taken(ts, r.rest)))
  {
    hide ParseLevel, WellFormed, Stops, Flatten, Strip, OpLevel;
    LevelSound(ts, 0, init);
    StripChangesNothing(Taken(ts, ParseLevel(ts, 0, init).rest));
  }

  /** Whatever the parser returns, it returns again for the tree's own tokens. */
  lemma ParseAgain(ts: seq<Token>, init: bool)
    requires AllCanonical(ts) && ParseLevel(ts, 0, init).Ok?
    ensures var e := ParseLevel(ts, 0, init).tree;
            ParseLevel(Flatten(e), 0, init) == Ok(e, [])
  {
    ParseConsumes(ts, init);
    ParseFlattened(ParseLevel(ts, 0, init).tree, init);
  }

  /** A well-formed tree is what parsing its own tokens gives. */
  lemma ParseFlattened(e: Expr, init: bool)
    requires WellFormed(e, init)
    ensures ParseLevel(Flatten(e), 0, init) == Ok(e, [])
    ensures AllCanonical(Flatten(e))
  {
    hide ParseLevel, WellFormed, Flatten;
    ClosersStop(e, EOF, init);
    assert Flatten(e) + [] == Flatten(e);
    LevelParses(e, 0, [], init);
    FlattenCanonical(e, init);
  }

  /** The well-formed trees are exactly the parser's results. */
  lemma WellFormedIffParsed(e: Expr, init: bool)
    ensures WellFormed(e, init) <==> exists ts :: AllCanonical(ts) && ParseLevel(ts, 0, init) == Ok(e, [])
  {
    hide ParseLevel, WellFormed, Flatten, Canonical;
    if WellFormed(e, init) {
      ParseFlattened(e, init);
    }
    if ts :| AllCanonical(ts) && ParseLevel(ts, 0, init) == Ok(e, []) {
      ParseConsumes(ts, init);
    }
  }

  /** Different well-formed trees have different tokens: the grammar is unambiguous. */
  lemma FlattenInjective(e: Expr, f: Expr, init: bool)
    requires WellFormed(e, init) && WellFormed(f, init) && Flatten(e) == Flatten(f)
    ensures e == f
  {
    hide ParseLevel, WellFormed, Flatten, Canonical;
    ParseFlattened(e, init);
    ParseFlattened(f, init);
  }

  lemma FlattenCanonical(e: Expr, init: bool)
    requires WellFormed(e, init)
    ensures AllCanonical(Flatten(e))
  {
    hide WellFormed, Flatten, Canonical;
    FlattenPlain(e, init);
  }

  /** No token is an error or the end. */
  predicate NoErrors(ts: seq<Token>) {
    forall t :: t in ts ==> t.kind != ERROR && t.kind != EOF
  }

  lemma FlattenNoErrors(e: Expr, init: bool)
    requires WellFormed(e, init)
    ensures NoErrors(Flatten(e))
  {
    hide WellFormed, Flatten, Canonical;
    FlattenPlain(e, init);
  }

  // -------------------------------------------------------- tokens of a tree

  /** A token with the spelling of its type, if that has one, and neither an error nor the end. */
  predicate Plain(t: Token) {
    Canonical(t) && t.kind != ERROR && t.kind != EOF
  }

  predicate AllPlain(ts: seq<Token>) {
    forall t :: t in ts ==> Plain(t)
  }

  lemma PlainKinds()
    ensures forall k :: k != ERROR && k != EOF ==> Plain(Fixed(k))
    ensures forall name :: Plain(Token(IDENTIFIER, name))
    ensures forall t: Token :: IsLiteral(t.kind) && Canonical(t) ==> Plain(t)
    ensures forall k :: IsOp(k) || IsPrefix(k) || IsAccess(k) || IsPtrOp(k) || IsAttribute(k) ==> k != ERROR && k != EOF
  {
  }

  /** Tokens around a token of fixed spelling. */
  lemma JoinPlain(a: seq<Token>, k: TokenType, b: seq<Token>, c: seq<Token>)
    requires k != ERROR && k != EOF && AllPlain(a) && AllPlain(b) && AllPlain(c)
    ensures AllPlain(a + ([Fixed(k)] + b)) && AllPlain(a + ([Fixed(k)] + b + c))
    ensures AllPlain([Fixed(k)] + b) && AllPlain([Fixed(k)] + b + c)
  {
    PlainKinds();
    hide Plain;
    assert forall t :: t in a + ([Fixed(k)] + b + c) <==> t in a || t == Fixed(k) || t in b || t in c;
    assert forall t :: t in a + ([Fixed(k)] + b) <==> t in a || t == Fixed(k) || t in b;
  }

  lemma OnePlain(t: Token)
    requires Plain(t)
    ensures AllPlain([]) && AllPlain([t])
  {
  }

  lemma ClosersPlain()
    ensures AllPlain([]) && AllPlain([Fixed(RIGHT_PAREN)]) && AllPlain([Fixed(RIGHT_BRACKET)])
    ensures AllPlain([Fixed(RIGHT_BRACE)]) && AllPlain([Fixed(PIPE)])
  {
    PlainKinds();
    hide Plain;
    OnePlain(Fixed(RIGHT_PAREN));
    OnePlain(Fixed(RIGHT_BRACKET));
    OnePlain(Fixed(RIGHT_BRACE));
    OnePlain(Fixed(PIPE));
  }

  lemma {:induction false} FlattenPlain(e: Expr, init: bool)
    requires WellFormed(e, init)
    ensures AllPlain(Flatten(e))
    decreases e, 2
  {
    if IsCompound(e) {
      CompoundPlain(e, init);
    } else if IsBraced(e) {
      BracedPlain(e, init);
    } else {
      PrefixedPlain(e, init);
    }
  }

  /** Trees that start with a whole tree. */
  predicate IsCompound(e: Expr) {
    e.Binary? || e.Call? || e.Index? || e.Slice? || e.Member?
  }

  predicate IsBraced(e: Expr) {
    e.AnonInit? || e.StructLiteral? || e.ArrayLiteral?
  }

  lemma {:induction false} CompoundPlain(e: Expr, init: bool)
    requires WellFormed(e, init) && IsCompound(e)
    ensures AllPlain(Flatten(e))
    decreases e, 1
  {
    ClosersPlain();
    PlainKinds();
    hide Stops, InnerStops, IsBase, Level, Spelling, Canonical, Plain, AllPlain;
    hide OpLevel, IsOp, IsPrefix, IsAccess, IsPtrOp, IsAttribute, IsLiteral;
    match e
    case Binary(left, op, right) =>
      FlattenPlain(left, init);
      FlattenPlain(right, init);
      JoinPlain(Flatten(left), op, Flatten(right), []);
    case Call(callable, args) =>
      FlattenPlain(callable, init);
      ListPlain(args, init);
      JoinPlain(Flatten(callable), LEFT_PAREN, FlattenList(args), [Fixed(RIGHT_PAREN)]);
    case Index(lhs, index) =>
      FlattenPlain(lhs, init);
      FlattenPlain(index, init);
      JoinPlain(Flatten(lhs), LEFT_BRACKET, Flatten(index), [Fixed(RIGHT_BRACKET)]);
    case Slice(lhs, start, end) =>
      FlattenPlain(lhs, init);
      if start.Given? { FlattenPlain(start.expr, init); }
      if end.Given? { FlattenPlain(end.expr, init); }
      JoinPlain([], COLON, FlattenMaybe(end), [Fixed(RIGHT_BRACKET)]);
      JoinPlain(Flatten(lhs), LEFT_BRACKET, FlattenMaybe(start),
                [Fixed(COLON)] + FlattenMaybe(end) + [Fixed(RIGHT_BRACKET)]);
      SliceParts(e);
    case Member(target, access, accessor) =>
      FlattenPlain(target, init);
      FlattenPlain(accessor, init);
      JoinPlain(Flatten(target), access, Flatten(accessor), []);
  }

  lemma SliceParts(e: Expr)
    requires e.Slice?
    ensures Flatten(e) == Flatten(e.lhs) + ([Fixed(LEFT_BRACKET)] + FlattenMaybe(e.start)
                            + ([Fixed(COLON)] + FlattenMaybe(e.end) + [Fixed(RIGHT_BRACKET)]))
  {
    hide Spelling, Fixed;
  }

  lemma {:induction false} PrefixedPlain(e: Expr, init: bool)
    requires WellFormed(e, init) && !IsCompound(e) && !IsBraced(e)
    ensures AllPlain(Flatten(e))
    decreases e, 1
  {
    ClosersPlain();
    PlainKinds();
    hide Stops, InnerStops, IsBase, Level, Spelling, Canonical, Plain, AllPlain;
    hide OpLevel, IsOp, IsPrefix, IsAccess, IsPtrOp, IsAttribute, IsLiteral;
    match e
    case Literal(token) => OnePlain(token);
    case Symbol(name) => OnePlain(Token(IDENTIFIER, name));
    case Named(name, value) =>
      FlattenPlain(value, init);
      OnePlain(Token(IDENTIFIER, name));
      JoinPlain([Token(IDENTIFIER, name)], COLON, Flatten(value), []);
      assert Flatten(e) == [Token(IDENTIFIER, name)] + ([Fixed(COLON)] + Flatten(value));
    case Group(inner) =>
      FlattenPlain(inner, init);
      JoinPlain([], LEFT_PAREN, Flatten(inner), [Fixed(RIGHT_PAREN)]);
    case Unary(op, right) =>
      FlattenPlain(right, init);
      JoinPlain([], op, Flatten(right), []);
    case SizeofOf(operand) =>
      FlattenPlain(operand, init);
      JoinPlain([], SIZEOF, Flatten(operand), []);
    case NameofOf(operand) =>
      FlattenPlain(operand, init);
      JoinPlain([], NAMEOF, Flatten(operand), []);
    case Keyword(kind) => OnePlain(Fixed(kind));
    case Packed => OnePlain(Fixed(ELLIPSE));
    case Abs(inner) =>
      FlattenPlain(inner, init);
      JoinPlain([], PIPE, Flatten(inner), [Fixed(PIPE)]);
    case PtrOp(op, operand) =>
      FlattenPlain(operand, init);
      JoinPlain([], op, Flatten(operand), []);
  }

  lemma {:induction false} BracedPlain(e: Expr, init: bool)
    requires WellFormed(e, init) && IsBraced(e)
    ensures AllPlain(Flatten(e))
    decreases e, 1
  {
    ClosersPlain();
    PlainKinds();
    hide Stops, InnerStops, IsBase, Level, Spelling, Canonical, Plain, AllPlain;
    hide OpLevel, IsOp, IsPrefix, IsAccess, IsPtrOp, IsAttribute, IsLiteral;
    ListPlain(e.elements, init);
    StructParts(e);
    hide WellFormed, FlattenList;
    match e
    case AnonInit(elements) => JoinPlain([], LEFT_BRACE, FlattenList(elements), [Fixed(RIGHT_BRACE)]);
    case StructLiteral(name, elements) =>
      OnePlain(Token(IDENTIFIER, name));
      JoinPlain([Token(IDENTIFIER, name)], LEFT_BRACE, FlattenList(elements), [Fixed(RIGHT_BRACE)]);
    case ArrayLiteral(elements) => JoinPlain([], LEFT_BRACKET, FlattenList(elements), [Fixed(RIGHT_BRACKET)]);
  }

  lemma StructParts(e: Expr)
    ensures e.StructLiteral? ==>
      Flatten(e) == [Token(IDENTIFIER, e.name)]
                      + ([Fixed(LEFT_BRACE)] + FlattenList(e.elements) + [Fixed(RIGHT_BRACE)])
  {
    hide Spelling, Fixed;
  }

  lemma {:induction false} ListPlain(es: seq<Expr>, init: bool)
    requires forall e :: e in es ==> WellFormed(e, init)
    ensures AllPlain(FlattenList(es))
    decreases es, 0
  {
    ClosersPlain();
    hide WellFormed, Flatten, AllPlain, Plain;
    if es != [] {
      FlattenPlain(es[0], init);
      ListPlain(es[1..], init);
      JoinPlain(Flatten(es[0]), COMMA, FlattenList(es[1..]), []);
    }
  }

  // ------------------------------------------------------------ trailing commas

  lemma {:induction false} ListParsesTrailing(es: seq<Expr>, close: TokenType, rest: seq<Token>, init: bool)
    requires ClosesList(close) && es != [] && forall e :: e in es ==> WellFormed(e, init)
    ensures ParseList(FlattenList(es) + ([Fixed(COMMA), Fixed(close)] + rest), close, init)
         == OkList(es, [Fixed(close)] + rest)
  {
    hide ParseLevel, ParseList, WellFormed, Flatten, FlattenList, Stops, OpLevel, Spelling;
    FlattenListCases(es);
    var after, closing := [Fixed(COMMA), Fixed(close)] + rest, [Fixed(close)] + rest;
    var ts := FlattenList(es) + after;
    assert after[1..] == closing;
    FirstToken(es[0], init);
    ClosersStop(es[0], COMMA, init);
    if |es| == 1 {
      LevelParses(es[0], 0, after, init);
      ListEnd(closing, close, init);
      ListStep(ts, close, es[0], after, init);
      assert es == [es[0]] + [];
    } else {
      var more := FlattenList(es[1..]) + after;
      var tail := [Fixed(COMMA)] + more;
      assert ts == Flatten(es[0]) + tail;
      assert tail[1..] == more;
      LevelParses(es[0], 0, tail, init);
      ListParsesTrailing(es[1..], close, rest, init);
      ListStep(ts, close, es[0], tail, init);
    }
  }

  /** A primary that no operator follows is a whole expression. */
  lemma {:induction false} PrimaryIsExpression(ts: seq<Token>, level: nat, e: Expr, rest: seq<Token>, init: bool)
    requires level <= 8 && ParsePrimary(ts, init) == Ok(e, rest) && !IsPrefix(Peek(ts)) && !IsOp(Peek(rest))
    ensures ParseLevel(ts, level, init) == Ok(e, rest)
    decreases 8 - level
  {
    hide ParsePrimary, OpLevel, ParseFold;
    if level < 8 {
      PrimaryIsExpression(ts, level + 1, e, rest, init);
      LevelStep(ts, level, e, rest, init);
      assert OpLevel(Peek(rest)) != level;
      FoldEnds(e, rest, level, init);
    }
  }

  /**
   Why flattening can fall short of the tokens consumed: every call with arguments is parsed
   from its own tokens and, with one comma more, from others.
   */
  lemma TrailingCommaLost(callable: Expr, args: seq<Expr>, rest: seq<Token>, init: bool)
    requires WellFormed(Call(callable, args), init) && args != [] && !IsOp(Peek(rest))
    ensures var with := Flatten(callable)
              + ([Fixed(LEFT_PAREN)] + FlattenList(args) + [Fixed(COMMA), Fixed(RIGHT_PAREN)]);
            && ParseLevel(with + rest, 0, init) == Ok(Call(callable, args), rest)
            && with != Flatten(Call(callable, args))
  {
    hide ParseLevel, ParsePrimary, ParsePostfix, ParseList, FlattenList, Stops, InnerStops, OpLevel, Spelling;
    var e := Call(callable, args);
    var with := Flatten(callable) + ([Fixed(LEFT_PAREN)] + FlattenList(args) + [Fixed(COMMA), Fixed(RIGHT_PAREN)]);
    var after := [Fixed(RIGHT_PAREN)] + rest;
    var list := FlattenList(args) + ([Fixed(COMMA), Fixed(RIGHT_PAREN)] + rest);
    var tail := [Fixed(LEFT_PAREN)] + list;
    assert with + rest == Flatten(callable) + tail;
    assert tail[1..] == list && after[1..] == rest;
    BaseReads(callable, tail, init);
    ListParsesTrailing(args, RIGHT_PAREN, rest, init);
    CallStep(callable, tail, args, after, init);
    FirstToken(callable, init);
    assert Peek(with + rest) == Flatten(callable)[0].kind;
    PrimaryIsExpression(with + rest, 0, e, rest, init);
    assert |with| == |Flatten(e)| + 1;
  }
}
