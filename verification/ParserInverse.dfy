/**
 Parser and flattener are inverse to each other: the trees the parser returns are exactly the
 well-formed ones, each well-formed tree parses back to itself, and a returned tree flattens to
 the tokens consumed, except for commas that trail in a list.
 */
module ParserInverse {
  import opened Tokens
  import opened Expressions
  import opened ParserSteps

  // ------------------------------------------------------------ well-formedness

  /** Binary operators by level, then unary expressions (8), then primaries (9). */
  function Level(e: Expr): (level: nat)
    ensures level <= 9
  {
    if e.Binary? then OpLevel(e.op) else if e.Unary? then 8 else 9
  }

  /** Expressions that brackets, an access or a call may follow. */
  predicate IsBase(e: Expr) {
    !e.Binary? && !e.Unary? && !e.Literal? && !e.Call? && !e.Member?
  }

  /** The sub-expression an expression ends with, if it ends with one. */
  function Last(e: Expr): (m: Maybe)
    ensures m.Given? ==> m.expr < e
  {
    if e.Named? then Given(e.value)
    else if e.Unary? || e.Binary? then Given(e.right)
    else if e.Member? then Given(e.accessor)
    else if e.SizeofOf? || e.NameofOf? || e.PtrOp? then Given(e.operand)
    else Absent
  }

  /** A name may turn into a named argument or a struct literal; some constructs take operators in. */
  predicate OwnStops(e: Expr, k: TokenType, init: bool) {
    && (e.Symbol? ==> k != COLON && !(init && k == LEFT_BRACE))
    && (e.Named? || e.SizeofOf? || e.NameofOf? ==> !IsOp(k))
  }

  /** No construct at the end of the expression takes `k` in. */
  predicate Stops(e: Expr, k: TokenType, init: bool) {
    && (Last(e).Given? ==> Stops(Last(e).expr, k, init))
    && OwnStops(e, k, init)
    && (IsBase(e) ==> !IsPostfix(k))
  }

  /** As Stops, leaving aside the postfix that may follow a base. */
  predicate InnerStops(e: Expr, k: TokenType, init: bool) {
    (Last(e).Given? ==> Stops(Last(e).expr, k, init)) && OwnStops(e, k, init)
  }

  /** Operands bind at least as tightly as the grammar demands and end where they should. */
  predicate WellFormed(e: Expr, init: bool) {
    match e
    case Literal(token) => IsLiteral(token.kind) && Canonical(token)
    case Symbol(_) => true
    case Named(_, value) => WellFormed(value, init)
    case Group(inner) => WellFormed(inner, init)
    case Unary(op, right) => IsPrefix(op) && WellFormed(right, init) && Level(right) >= 8
    case Binary(left, op, right) =>
      && IsOp(op) && WellFormed(left, init) && WellFormed(right, init)
      && Level(left) >= OpLevel(op) && Level(right) > OpLevel(op) && Stops(left, op, init)
    case Call(callable, args) =>
      && IsBase(callable) && WellFormed(callable, init) && InnerStops(callable, LEFT_PAREN, init)
      && forall a :: a in args ==> WellFormed(a, init)
    case Index(lhs, index) =>
      && IsBase(lhs) && WellFormed(lhs, init) && InnerStops(lhs, LEFT_BRACKET, init)
      && WellFormed(index, init)
    case Slice(lhs, start, end) =>
      && IsBase(lhs) && WellFormed(lhs, init) && InnerStops(lhs, LEFT_BRACKET, init)
      && (start.Given? ==> WellFormed(start.expr, init) && Stops(start.expr, COLON, init))
      && (end.Given? ==> WellFormed(end.expr, init))
    case Member(target, access, accessor) =>
      && IsAccess(access) && IsBase(target) && WellFormed(target, init) && InnerStops(target, access, init)
      && Level(accessor) == 9 && WellFormed(accessor, init)
    case SizeofOf(operand) => WellFormed(operand, init)
    case NameofOf(operand) => WellFormed(operand, init)
    case Keyword(kind) => IsAttribute(kind)
    case AnonInit(elements) => forall a :: a in elements ==> WellFormed(a, init)
    case StructLiteral(_, elements) => init && forall a :: a in elements ==> WellFormed(a, init)
    case ArrayLiteral(elements) => elements != [] && forall a :: a in elements ==> WellFormed(a, init)
    case Abs(inner) => WellFormed(inner, init)
    case PtrOp(op, operand) => IsPtrOp(op) && Level(operand) == 9 && WellFormed(operand, init)
    case Packed => true
  }

  predicate IsCloser(k: TokenType) {
    k == RIGHT_PAREN || k == RIGHT_BRACKET || k == RIGHT_BRACE || k == COMMA || k == PIPE || k == EOF
  }

  /** Closing tokens end every expression. */
  lemma ClosersStop(e: Expr, k: TokenType, init: bool)
    requires IsCloser(k)
    ensures Stops(e, k, init) && OpLevel(k) == 8
  {
    hide Stops;
    QuietStops(e, k, init);
  }

  lemma {:induction false} QuietStops(e: Expr, k: TokenType, init: bool)
    requires OpLevel(k) == 8 && !IsPostfix(k) && k != COLON && k != LEFT_BRACE
    ensures Stops(e, k, init)
  {
    hide IsPostfix;
    if Last(e).Given? { QuietStops(Last(e).expr, k, init); }
  }

  /** How an expression can begin. */
  predicate Begins(e: Expr, k: TokenType) {
    && (Level(e) == 9 ==> StartsInner(k) || IsLiteral(k))
    && (StartsInner(k) || IsLiteral(k) || IsPrefix(k))
    && (IsBase(e) ==> StartsInner(k))
    && k != COLON && k != RIGHT_PAREN && k != RIGHT_BRACE && k != RIGHT_BRACKET
  }

  lemma {:induction false} FirstToken(e: Expr, init: bool)
    requires WellFormed(e, init)
    ensures Begins(e, Flatten(e)[0].kind)
  {
    hide Spelling, Stops, InnerStops, Canonical, OpLevel;
    match e
    case Binary(left, _, _) => FirstToken(left, init);
    case Call(callable, _) => FirstToken(callable, init);
    case Index(lhs, _) => FirstToken(lhs, init);
    case Slice(lhs, _, _) => FirstToken(lhs, init);
    case Member(target, _, _) => FirstToken(target, init);
    case _ => OwnFirstToken(e, init);
  }

  /** The first token of the expressions that do not begin with another one. */
  lemma OwnFirstToken(e: Expr, init: bool)
    requires WellFormed(e, init)
    requires !e.Binary? && !e.Call? && !e.Index? && !e.Slice? && !e.Member?
    ensures Begins(e, Flatten(e)[0].kind)
  {
    hide Spelling, Stops, InnerStops, Canonical, OpLevel;
  }

  // ------------------------------------------------- well-formed trees parse back

  /** What is left to do at a binary level once a tree of that level has been read. */
  lemma {:induction false} LevelReads(e: Expr, level: nat, rest: seq<Token>, init: bool)
    requires level < 8 && WellFormed(e, init) && Level(e) >= level
    requires Stops(e, Peek(rest), init) && !(level < OpLevel(Peek(rest)) < 8)
    ensures ParseLevel(Flatten(e) + rest, level, init) == ParseFold(e, rest, level, init)
    decreases e, 20 - level, 0
  {
    hide ParseLevel, ParseFold, ParseUnary, ParsePrimary, ParsePostfix, ParseSliceEnd, ParseList, ParseElements,
         ParseInner, Spelling, OpLevel;
    if Level(e) == level {
      var right := Flatten(e.right) + rest;
      var tail := [Fixed(e.op)] + right;
      assert Flatten(e) + rest == Flatten(e.left) + tail;
      assert tail[1..] == right;
      LevelReads(e.left, level, tail, init);
      LevelParses(e.right, level + 1, rest, init);
      FoldStep(e.left, tail, level, e.right, rest, init);
    } else {
      LevelParses(e, level + 1, rest, init);
      LevelStep(Flatten(e) + rest, level, e, rest, init);
    }
  }

  /** A well-formed tree, flattened, parses back to itself and leaves the rest alone. */
  lemma {:induction false} LevelParses(e: Expr, level: nat, rest: seq<Token>, init: bool)
    requires level <= 8 && WellFormed(e, init) && Level(e) >= level
    requires Stops(e, Peek(rest), init) && !(level <= OpLevel(Peek(rest)) < 8)
    ensures ParseLevel(Flatten(e) + rest, level, init) == Ok(e, rest)
    decreases e, 20 - level, 1
  {
    hide ParseUnary, ParsePrimary, ParsePostfix, ParseSliceEnd, ParseList, ParseElements, ParseInner, OpLevel,
         WellFormed, Stops;
    if level < 8 {
      LevelReads(e, level, rest, init);
    } else {
      UnaryParses(e, rest, init);
    }
  }

  lemma {:induction false} UnaryParses(e: Expr, rest: seq<Token>, init: bool)
    requires WellFormed(e, init) && Level(e) >= 8 && Stops(e, Peek(rest), init)
    ensures ParseUnary(Flatten(e) + rest, init) == Ok(e, rest)
    decreases e, 11
  {
    hide ParseLevel, ParseFold, ParsePrimary, ParsePostfix, ParseSliceEnd, ParseList, ParseElements, ParseInner,
         Spelling, OpLevel;
    if e.Unary? {
      assert (Flatten(e) + rest)[1..] == Flatten(e.right) + rest;
      UnaryParses(e.right, rest, init);
      PrefixStep(Flatten(e) + rest, e.right, rest, init);
    } else {
      FirstToken(e, init);
      PrimaryParses(e, rest, init);
    }
  }

  lemma {:induction false} PrimaryParses(e: Expr, rest: seq<Token>, init: bool)
    requires WellFormed(e, init) && Level(e) == 9 && Stops(e, Peek(rest), init)
    ensures ParsePrimary(Flatten(e) + rest, init) == Ok(e, rest)
    decreases e, 10
  {
    hide ParseLevel, ParseFold, ParseUnary, ParseSliceEnd, ParseList, ParseElements, ParseInner, Spelling, OpLevel;
    if e.Literal? {
      assert ([e.token] + rest)[1..] == rest;
    } else if e.Call? {
      CallParses(e, rest, init);
    } else if e.Member? {
      MemberParses(e, rest, init);
    } else {
      BaseReads(e, rest, init);
    }
  }

  lemma {:induction false} CallParses(e: Expr, rest: seq<Token>, init: bool)
    requires e.Call? && WellFormed(e, init)
    ensures ParsePrimary(Flatten(e) + rest, init) == Ok(e, rest)
    decreases e, 9
  {
    hide ParseLevel, ParseFold, ParseUnary, ParsePrimary, ParsePostfix, ParseSliceEnd, ParseList, ParseElements,
         ParseInner, Spelling, OpLevel, Stops, InnerStops, IsBase, Level, StartsInner, IsLiteral, IsPrefix;
    var after := [Fixed(RIGHT_PAREN)] + rest;
    var args := FlattenList(e.args) + [Fixed(RIGHT_PAREN)] + rest;
    var tail := [Fixed(LEFT_PAREN)] + args;
    assert Flatten(e) + rest == Flatten(e.callable) + tail;
    assert tail[1..] == args && after[1..] == rest;
    BaseReads(e.callable, tail, init);
    ListParses(e.args, RIGHT_PAREN, rest, init);
    CallStep(e.callable, tail, e.args, after, init);
  }

  lemma {:induction false} MemberParses(e: Expr, rest: seq<Token>, init: bool)
    requires e.Member? && WellFormed(e, init) && Stops(e, Peek(rest), init)
    ensures ParsePrimary(Flatten(e) + rest, init) == Ok(e, rest)
    decreases e, 9
  {
    hide ParseLevel, ParseFold, ParseUnary, ParsePrimary, ParsePostfix, ParseSliceEnd, ParseList, ParseElements,
         ParseInner, Spelling, OpLevel;
    var tail := [Fixed(e.access)] + (Flatten(e.accessor) + rest);
    assert Flatten(e) + rest == Flatten(e.target) + tail;
    assert tail[1..] == Flatten(e.accessor) + rest;
    BaseReads(e.target, tail, init);
    PrimaryParses(e.accessor, rest, init);
    AccessStep(e.target, tail, e.accessor, rest, init);
  }

  /** What is left to do once a base has been read. */
  lemma {:induction false} BaseReads(e: Expr, rest: seq<Token>, init: bool)
    requires WellFormed(e, init) && IsBase(e) && InnerStops(e, Peek(rest), init)
    ensures ParsePrimary(Flatten(e) + rest, init) == ParsePostfix(e, rest, init)
    decreases e, 8
  {
    hide ParseLevel, ParseFold, ParseUnary, ParsePrimary, ParsePostfix, ParseSliceEnd, ParseList, ParseElements,
         ParseInner, Spelling, OpLevel;
    if e.Index? {
      IndexReads(e, rest, init);
    } else if e.Slice? {
      SliceReads(e, rest, init);
    } else {
      BareReads(e, rest, init);
    }
  }

  lemma {:induction false} BareReads(e: Expr, rest: seq<Token>, init: bool)
    requires WellFormed(e, init) && IsBase(e) && !e.Index? && !e.Slice? && InnerStops(e, Peek(rest), init)
    ensures ParsePrimary(Flatten(e) + rest, init) == ParsePostfix(e, rest, init)
    decreases e, 7
  {
    hide WellFormed, IsBase, InnerStops, ParsePrimary, ParsePostfix, ParseInner;
    InnerParses(e, rest, init);
    PrimaryStep(Flatten(e) + rest, e, rest, init);
  }

  lemma {:induction false} IndexReads(e: Expr, rest: seq<Token>, init: bool)
    requires e.Index? && WellFormed(e, init)
    ensures ParsePrimary(Flatten(e) + rest, init) == ParsePostfix(e, rest, init)
    decreases e, 7
  {
    hide ParseLevel, ParseFold, ParseUnary, ParsePrimary, ParsePostfix, ParseSliceEnd, ParseList, ParseElements,
         ParseInner, Spelling, OpLevel, StartsInner, IsLiteral, Stops, InnerStops, IsBase, Level, IsPrefix;
    var after := [Fixed(RIGHT_BRACKET)] + rest;
    var inner := Flatten(e.index) + after;
    var tail := [Fixed(LEFT_BRACKET)] + inner;
    assert Flatten(e) + rest == Flatten(e.lhs) + tail;
    assert tail[1..] == inner && after[1..] == rest;
    BaseReads(e.lhs, tail, init);
    ClosersStop(e.index, RIGHT_BRACKET, init);
    FirstToken(e.index, init);
    LevelParses(e.index, 0, after, init);
    IndexStep(e.lhs, tail, e.index, after, init);
  }

  lemma SliceFlattens(e: Expr, rest: seq<Token>)
    requires e.Slice?
    ensures Flatten(e) + rest ==
      Flatten(e.lhs) + ([Fixed(LEFT_BRACKET)] + (FlattenMaybe(e.start) +
        ([Fixed(COLON)] + (FlattenMaybe(e.end) + ([Fixed(RIGHT_BRACKET)] + rest)))))
  {
    hide Spelling, Fixed;
  }

  lemma {:induction false} SliceReads(e: Expr, rest: seq<Token>, init: bool)
    requires e.Slice? && WellFormed(e, init)
    ensures ParsePrimary(Flatten(e) + rest, init) == ParsePostfix(e, rest, init)
    decreases e, 7
  {
    assert OpLevel(COLON) == 8;
    hide ParseLevel, ParseFold, ParseUnary, ParsePrimary, ParsePostfix, ParseSliceEnd, ParseList, ParseElements,
         ParseInner, Spelling, OpLevel, StartsInner, IsLiteral, Stops, InnerStops, IsBase, Level, IsPrefix;
    var inner := FlattenMaybe(e.end) + ([Fixed(RIGHT_BRACKET)] + rest);
    var colon := [Fixed(COLON)] + inner;
    var tail := [Fixed(LEFT_BRACKET)] + (FlattenMaybe(e.start) + colon);
    SliceFlattens(e, rest);
    BaseReads(e.lhs, tail, init);
    SliceEndParses(e.lhs, e.start, e.end, rest, init);
    assert tail[1..] == FlattenMaybe(e.start) + colon;
    assert colon[1..] == inner;
    if e.start.Given? {
      FirstToken(e.start.expr, init);
      LevelParses(e.start.expr, 0, colon, init);
      hide Flatten, WellFormed;
      SliceStep(e.lhs, tail, e.start.expr, colon, init);
    } else {
      assert tail[1..] == colon && tail[2..] == inner;
      OpenSliceStep(e.lhs, tail, init);
    }
  }

  lemma {:induction false} SliceEndParses(lhs: Expr, start: Maybe, end: Maybe, rest: seq<Token>, init: bool)
    requires end.Given? ==> WellFormed(end.expr, init)
    ensures ParseSliceEnd(lhs, start, FlattenMaybe(end) + ([Fixed(RIGHT_BRACKET)] + rest), init)
         == ParsePostfix(Slice(lhs, start, end), rest, init)
    decreases end, 21
  {
    hide ParseLevel, ParseFold, ParseUnary, ParsePrimary, ParsePostfix, ParseSliceEnd, ParseList, ParseElements,
         ParseInner, Spelling, OpLevel, StartsInner, IsLiteral, WellFormed, Flatten, Stops, InnerStops, IsBase,
         Level, IsPrefix;
    var after := [Fixed(RIGHT_BRACKET)] + rest;
    var ts := FlattenMaybe(end) + after;
    assert after[1..] == rest;
    if end.Given? {
      FirstToken(end.expr, init);
      ClosersStop(end.expr, RIGHT_BRACKET, init);
      LevelParses(end.expr, 0, after, init);
      SliceEndStep(lhs, start, ts, end.expr, after, init);
    } else {
      assert ts == after;
      OpenSliceEndStep(lhs, start, after, init);
    }
  }

  lemma FlattenListCases(es: seq<Expr>)
    ensures es == [] ==> FlattenList(es) == []
    ensures |es| == 1 ==> FlattenList(es) == Flatten(es[0]) && es == [es[0]]
    ensures |es| > 1 ==>
              FlattenList(es) == Flatten(es[0]) + ([Fixed(COMMA)] + FlattenList(es[1..])) && es == [es[0]] + es[1..]
  {
  }

  lemma {:induction false} ListParses(es: seq<Expr>, close: TokenType, rest: seq<Token>, init: bool)
    requires close == RIGHT_PAREN || close == RIGHT_BRACE
    requires forall e :: e in es ==> WellFormed(e, init)
    ensures ParseList(FlattenList(es) + [Fixed(close)] + rest, close, init) == OkList(es, [Fixed(close)] + rest)
    decreases es, 21
  {
    hide ParseLevel, ParseFold, ParseUnary, ParsePrimary, ParsePostfix, ParseSliceEnd, ParseList, ParseElements,
         ParseInner, Spelling, OpLevel, StartsInner, IsLiteral, WellFormed, Flatten, Stops, InnerStops, Level,
         IsPrefix, FlattenList;
    FlattenListCases(es);
    var after := [Fixed(close)] + rest;
    var ts := FlattenList(es) + [Fixed(close)] + rest;
    assert ts == FlattenList(es) + after;
    if es == [] {
      assert ts == after;
      ListEnd(ts, close, init);
    } else {
      FirstToken(es[0], init);
      if |es| == 1 {
        ClosersStop(es[0], close, init);
        LevelParses(es[0], 0, after, init);
        ListStep(ts, close, es[0], after, init);
      } else {
        var more := FlattenList(es[1..]) + [Fixed(close)] + rest;
        var tail := [Fixed(COMMA)] + more;
        assert ts == Flatten(es[0]) + tail;
        assert tail[1..] == more;
        ClosersStop(es[0], COMMA, init);
        LevelParses(es[0], 0, tail, init);
        ListParses(es[1..], close, rest, init);
        ListStep(ts, close, es[0], tail, init);
      }
    }
  }

  lemma {:induction false} ElementsParse(es: seq<Expr>, rest: seq<Token>, init: bool)
    requires es != [] && forall e :: e in es ==> WellFormed(e, init)
    ensures ParseElements(FlattenList(es) + [Fixed(RIGHT_BRACKET)] + rest, init)
         == OkList(es, [Fixed(RIGHT_BRACKET)] + rest)
    decreases es, 21
  {
    hide ParseLevel, ParseFold, ParseUnary, ParsePrimary, ParsePostfix, ParseSliceEnd, ParseList, ParseElements,
         ParseInner, Spelling, OpLevel, WellFormed, Flatten, Stops, InnerStops, IsBase, Level, StartsInner,
         IsLiteral, IsPrefix, FlattenList;
    FlattenListCases(es);
    var after := [Fixed(RIGHT_BRACKET)] + rest;
    var ts := FlattenList(es) + [Fixed(RIGHT_BRACKET)] + rest;
    assert ts == FlattenList(es) + after;
    if |es| == 1 {
      ClosersStop(es[0], RIGHT_BRACKET, init);
      LevelParses(es[0], 0, after, init);
      ElementsStep(ts, es[0], after, init);
    } else {
      var more := FlattenList(es[1..]) + [Fixed(RIGHT_BRACKET)] + rest;
      var tail := [Fixed(COMMA)] + more;
      assert ts == Flatten(es[0]) + tail;
      assert tail[1..] == more;
      ClosersStop(es[0], COMMA, init);
      LevelParses(es[0], 0, tail, init);
      ElementsParse(es[1..], rest, init);
      ElementsStep(ts, es[0], tail, init);
    }
  }

  lemma {:induction false} InnerParses(e: Expr, rest: seq<Token>, init: bool)
    requires WellFormed(e, init) && IsBase(e) && !e.Index? && !e.Slice? && InnerStops(e, Peek(rest), init)
    ensures StartsInner(Flatten(e)[0].kind)
    ensures ParseInner(Flatten(e) + rest, init) == Ok(e, rest)
    decreases e, 6
  {
    hide ParseLevel, ParseFold, ParseUnary, ParsePrimary, ParsePostfix, ParseSliceEnd, ParseList, ParseElements,
         ParseInner, Spelling, OpLevel;
    var ts := Flatten(e) + rest;
    match e
    case Symbol(name) =>
      assert ts[1..] == rest;
      SymbolStep(ts, init);
    case Keyword(kind) =>
      assert ts[1..] == rest;
      LeafStep(ts, init);
    case Packed =>
      assert ts[1..] == rest;
      LeafStep(ts, init);
    case Group(_) => EnclosedParses(e, rest, init);
    case Abs(_) => EnclosedParses(e, rest, init);
    case AnonInit(_) => BracedParses(e, rest, init);
    case StructLiteral(_, _) => BracedParses(e, rest, init);
    case ArrayLiteral(_) => BracedParses(e, rest, init);
    case Named(_, _) => PrefixedParses(e, rest, init);
    case SizeofOf(_) => PrefixedParses(e, rest, init);
    case NameofOf(_) => PrefixedParses(e, rest, init);
    case PtrOp(_, _) => PrefixedParses(e, rest, init);
    case _ =>
  }

  lemma {:induction false} EnclosedParses(e: Expr, rest: seq<Token>, init: bool)
    requires WellFormed(e, init) && (e.Group? || e.Abs?)
    ensures StartsInner(Flatten(e)[0].kind)
    ensures ParseInner(Flatten(e) + rest, init) == Ok(e, rest)
    decreases e, 5
  {
    hide ParseLevel, ParseFold, ParseUnary, ParsePrimary, ParsePostfix, ParseSliceEnd, ParseList, ParseElements,
         ParseInner, Spelling, OpLevel, Stops, InnerStops, IsBase, Level;
    var close := if e.Group? then RIGHT_PAREN else PIPE;
    var after := [Fixed(close)] + rest;
    var ts := Flatten(e) + rest;
    assert ts[1..] == Flatten(e.inner) + after;
    assert after[1..] == rest;
    ClosersStop(e.inner, close, init);
    LevelParses(e.inner, 0, after, init);
    EnclosedStep(ts, e.inner, after, init);
  }

  lemma {:induction false} PrefixedParses(e: Expr, rest: seq<Token>, init: bool)
    requires WellFormed(e, init) && InnerStops(e, Peek(rest), init)
    requires e.Named? || e.SizeofOf? || e.NameofOf? || e.PtrOp?
    ensures StartsInner(Flatten(e)[0].kind)
    ensures ParseInner(Flatten(e) + rest, init) == Ok(e, rest)
    decreases e, 5
  {
    hide ParseLevel, ParseFold, ParseUnary, ParsePrimary, ParsePostfix, ParseSliceEnd, ParseList, ParseElements,
         ParseInner, Spelling, OpLevel;
    var ts := Flatten(e) + rest;
    if e.Named? {
      assert ts[2..] == Flatten(e.value) + rest;
      LevelParses(e.value, 0, rest, init);
      NamedStep(ts, e.value, rest, init);
    } else {
      assert ts[1..] == Flatten(e.operand) + rest;
      if e.PtrOp? {
        PrimaryParses(e.operand, rest, init);
        PtrOpStep(ts, e.operand, rest, init);
      } else {
        LevelParses(e.operand, 0, rest, init);
        OperatorStep(ts, e.operand, rest, init);
      }
    }
  }

  lemma {:induction false} BracedParses(e: Expr, rest: seq<Token>, init: bool)
    requires WellFormed(e, init) && (e.AnonInit? || e.StructLiteral? || e.ArrayLiteral?)
    ensures StartsInner(Flatten(e)[0].kind)
    ensures ParseInner(Flatten(e) + rest, init) == Ok(e, rest)
    decreases e, 5
  {
    hide ParseInner, WellFormed, Flatten;
    if e.ArrayLiteral? {
      ArrayParses(e, rest, init);
    } else if e.AnonInit? {
      AnonParses(e, rest, init);
    } else {
      StructParses(e, rest, init);
    }
  }

  lemma {:induction false} AnonParses(e: Expr, rest: seq<Token>, init: bool)
    requires WellFormed(e, init) && e.AnonInit?
    ensures StartsInner(Flatten(e)[0].kind)
    ensures ParseInner(Flatten(e) + rest, init) == Ok(e, rest)
    decreases e, 4
  {
    hide ParseLevel, ParseFold, ParseUnary, ParsePrimary, ParsePostfix, ParseSliceEnd, ParseList, ParseElements,
         ParseInner, Spelling, OpLevel, Stops, InnerStops, IsBase, Level;
    var ts, after := Flatten(e) + rest, [Fixed(RIGHT_BRACE)] + rest;
    assert after[1..] == rest;
    ListParses(e.elements, RIGHT_BRACE, rest, init);
    assert ts[1..] == FlattenList(e.elements) + [Fixed(RIGHT_BRACE)] + rest;
    AnonStep(ts, e.elements, after, init);
  }

  lemma {:induction false} StructParses(e: Expr, rest: seq<Token>, init: bool)
    requires WellFormed(e, init) && e.StructLiteral?
    ensures StartsInner(Flatten(e)[0].kind)
    ensures ParseInner(Flatten(e) + rest, init) == Ok(e, rest)
    decreases e, 4
  {
    hide ParseLevel, ParseFold, ParseUnary, ParsePrimary, ParsePostfix, ParseSliceEnd, ParseList, ParseElements,
         ParseInner, Spelling, OpLevel, Stops, InnerStops, IsBase, Level;
    var ts, after := Flatten(e) + rest, [Fixed(RIGHT_BRACE)] + rest;
    assert after[1..] == rest;
    ListParses(e.elements, RIGHT_BRACE, rest, init);
    assert ts[2..] == FlattenList(e.elements) + [Fixed(RIGHT_BRACE)] + rest;
    StructStep(ts, e.elements, after);
  }

  lemma {:induction false} ArrayParses(e: Expr, rest: seq<Token>, init: bool)
    requires WellFormed(e, init) && e.ArrayLiteral?
    ensures StartsInner(Flatten(e)[0].kind)
    ensures ParseInner(Flatten(e) + rest, init) == Ok(e, rest)
    decreases e, 4
  {
    hide ParseLevel, ParseFold, ParseUnary, ParsePrimary, ParsePostfix, ParseSliceEnd, ParseList, ParseElements,
         ParseInner, Spelling, OpLevel, Stops, InnerStops, IsBase, Level;
    var ts, after := Flatten(e) + rest, [Fixed(RIGHT_BRACKET)] + rest;
    assert after[1..] == rest;
    assert ts[1..] == FlattenList(e.elements) + [Fixed(RIGHT_BRACKET)] + rest;
    ElementsParse(e.elements, rest, init);
    ArrayStep(ts, e.elements, after, init);
  }
}
