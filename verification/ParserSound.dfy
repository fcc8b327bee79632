/**
 What the parser returns: a well-formed tree that ends where the parser stopped, and whose
 flattening is the tokens consumed without the commas that trail in a list.
 */
module ParserSound {
  import opened Tokens
  import opened Expressions
  import opened ParserSteps
  import opened ParserInverse

  // ---------------------------------------------------------------- consumption

  predicate ClosesList(k: TokenType) { k == RIGHT_PAREN || k == RIGHT_BRACE }

  /** The tokens without the commas directly before the end of a list. */
  function Strip(ts: seq<Token>): seq<Token> {
    if ts == [] then []
    else if ts[0].kind == COMMA && ClosesList(Peek(ts[1..])) then Strip(ts[1..])
    else [ts[0]] + Strip(ts[1..])
  }

  predicate NoTrailingComma(ts: seq<Token>) {
    forall i :: 0 <= i < |ts| - 1 && ts[i].kind == COMMA ==> !ClosesList(ts[i + 1].kind)
  }

  /** Stripping changes nothing exactly where no comma trails. */
  lemma {:induction false} StripChangesNothing(ts: seq<Token>)
    ensures |Strip(ts)| <= |ts|
    ensures Strip(ts) == ts <==> NoTrailingComma(ts)
  {
    if ts != [] {
      var tail := ts[1..];
      StripChangesNothing(tail);
      assert ts == [ts[0]] + tail;
      if ts[0].kind == COMMA && ClosesList(Peek(tail)) {
        assert ts[1] == tail[0];
      } else {
        assert Strip(ts)[1..] == Strip(tail);
        assert NoTrailingComma(ts) <==> NoTrailingComma(tail) by {
          if NoTrailingComma(tail) {
            forall i | 0 <= i < |ts| - 1 && ts[i].kind == COMMA ensures !ClosesList(ts[i + 1].kind) {
              if i > 0 { assert tail[i - 1] == ts[i] && tail[i] == ts[i + 1]; }
            }
          }
          if NoTrailingComma(ts) {
            forall i | 0 <= i < |tail| - 1 && tail[i].kind == COMMA ensures !ClosesList(tail[i + 1].kind) {
              assert tail[i] == ts[i + 1] && tail[i + 1] == ts[i + 2];
            }
          }
        }
      }
    }
  }

  predicate Suffix(ts: seq<Token>, rest: seq<Token>) {
    |rest| <= |ts| && ts[|ts| - |rest|..] == rest
  }

  function Taken(ts: seq<Token>, rest: seq<Token>): seq<Token>
    requires |rest| <= |ts|
  {
    ts[..|ts| - |rest|]
  }

  predicate EndsInComma(ts: seq<Token>) {
    ts != [] && ts[|ts| - 1].kind == COMMA
  }

  /** Reading from `ts` up to `rest` yields `out`. */
  predicate Reads(ts: seq<Token>, rest: seq<Token>, out: seq<Token>) {
    Suffix(ts, rest) && Strip(Taken(ts, rest)) == out && !EndsInComma(Taken(ts, rest))
  }

  lemma {:induction false} StripJoin(a: seq<Token>, b: seq<Token>)
    requires !EndsInComma(a)
    ensures Strip(a + b) == Strip(a) + Strip(b)
  {
    if a == [] {
      assert a + b == b;
    } else {
      var tail := a[1..];
      assert (a + b)[1..] == tail + b;
      StripJoin(tail, b);
      if tail == [] { assert tail + b == b; }
    }
  }

  lemma ReadsJoin(ts: seq<Token>, mid: seq<Token>, rest: seq<Token>, a: seq<Token>, b: seq<Token>)
    requires Reads(ts, mid, a) && Reads(mid, rest, b)
    ensures Reads(ts, rest, a + b)
  {
    StripJoin(Taken(ts, mid), Taken(mid, rest));
    assert Taken(ts, rest) == Taken(ts, mid) + Taken(mid, rest);
  }

  lemma ReadsOne(ts: seq<Token>)
    requires ts != [] && ts[0].kind != COMMA
    ensures Reads(ts, ts[1..], [ts[0]])
  {
    assert Taken(ts, ts[1..]) == [ts[0]];
  }

  lemma ReadsNone(ts: seq<Token>)
    ensures Reads(ts, ts, [])
  {
    assert Taken(ts, ts) == [];
  }

  /** A trailing comma and the closing token read as the closing token. */
  lemma ReadsTrailing(ts: seq<Token>)
    requires |ts| >= 2 && ts[0].kind == COMMA && ClosesList(ts[1].kind)
    ensures Reads(ts, ts[1..][1..], [ts[1]])
  {
    var taken := Taken(ts, ts[1..][1..]);
    assert taken == [ts[0], ts[1]] && taken[1..] == [ts[1]];
    assert Strip([ts[1]]) == [ts[1]];
  }

  /** A comma before something that does not close a list reads as itself. */
  lemma ReadsComma(ts: seq<Token>, rest: seq<Token>, out: seq<Token>)
    requires ts != [] && ts[0].kind == COMMA && Reads(ts[1..], rest, out)
    requires out != [] && !ClosesList(out[0].kind)
    ensures Reads(ts, rest, [ts[0]] + out)
  {
    var taken := Taken(ts[1..], rest);
    assert Taken(ts, rest) == [ts[0]] + taken;
    assert Taken(ts, rest)[1..] == taken;
    assert taken != [];
    assert taken[0].kind != COMMA ==> Strip(taken)[0] == taken[0];
  }

  // ------------------------------------------------------------------ soundness

  predicate AllCanonical(ts: seq<Token>) {
    forall t :: t in ts ==> Canonical(t)
  }

  /** Operators and punctuation read as their one spelling. */
  lemma ReadsFixed(ts: seq<Token>)
    requires AllCanonical(ts) && ts != [] && Spelling(ts[0].kind) != ""
    requires ts[0].kind != COMMA && ts[0].kind != ERROR
    ensures Reads(ts, ts[1..], [Fixed(ts[0].kind)])
    ensures AllCanonical(ts[1..])
  {
    hide Spelling;
    assert ts[0] in ts;
    ReadsOne(ts);
  }

  lemma CanonicalSuffix(ts: seq<Token>, rest: seq<Token>)
    requires AllCanonical(ts) && Suffix(ts, rest)
    ensures AllCanonical(rest)
  {
  }

  /** Well formed, and over before `k`. */
  predicate Shaped(e: Expr, k: TokenType, init: bool) {
    WellFormed(e, init) && Stops(e, k, init)
  }

  /** As Shaped, for a base that a postfix may still follow. */
  predicate ShapedBase(e: Expr, k: TokenType, init: bool) {
    IsBase(e) && WellFormed(e, init) && InnerStops(e, k, init)
  }

  /** The tree is what was read, is well formed, and stops before what comes next. */
  predicate Good(ts: seq<Token>, e: Expr, rest: seq<Token>, init: bool) {
    Shaped(e, Peek(rest), init) && Reads(ts, rest, Flatten(e)) && AllCanonical(rest)
  }

  predicate GoodBase(ts: seq<Token>, e: Expr, rest: seq<Token>, init: bool) {
    ShapedBase(e, Peek(rest), init) && Reads(ts, rest, Flatten(e)) && AllCanonical(rest)
  }

  // ------------------------------------------------------------------- shapes

  lemma BinaryShape(left: Expr, op: TokenType, right: Expr, k: TokenType, init: bool)
    requires IsOp(op) && Shaped(left, op, init) && Level(left) >= OpLevel(op)
    requires Shaped(right, k, init) && Level(right) > OpLevel(op)
    ensures Shaped(Binary(left, op, right), k, init)
  {
    hide OpLevel;
  }

  lemma UnaryShape(op: TokenType, right: Expr, k: TokenType, init: bool)
    requires IsPrefix(op) && Shaped(right, k, init) && Level(right) >= 8
    ensures Shaped(Unary(op, right), k, init)
  {
    hide OpLevel;
  }

  lemma MemberShape(lhs: Expr, access: TokenType, accessor: Expr, k: TokenType, init: bool)
    requires ShapedBase(lhs, access, init) && IsAccess(access) && Shaped(accessor, k, init) && Level(accessor) == 9
    ensures Shaped(Member(lhs, access, accessor), k, init)
  {
  }

  lemma CallShape(lhs: Expr, args: seq<Expr>, k: TokenType, init: bool)
    requires ShapedBase(lhs, LEFT_PAREN, init) && forall a :: a in args ==> WellFormed(a, init)
    ensures Shaped(Call(lhs, args), k, init)
  {
    hide OpLevel;
  }

  lemma IndexShape(lhs: Expr, index: Expr, k: TokenType, init: bool)
    requires ShapedBase(lhs, LEFT_BRACKET, init) && Shaped(index, RIGHT_BRACKET, init)
    ensures ShapedBase(Index(lhs, index), k, init)
  {
    hide OpLevel;
  }

  lemma SliceShape(lhs: Expr, from: Maybe, to: Maybe, k: TokenType, init: bool)
    requires ShapedBase(lhs, LEFT_BRACKET, init)
    requires from.Given? ==> Shaped(from.expr, COLON, init)
    requires to.Given? ==> Shaped(to.expr, RIGHT_BRACKET, init)
    ensures ShapedBase(Slice(lhs, from, to), k, init)
  {
    hide OpLevel;
  }

  lemma OperatorShape(operand: Expr, name: string, k: TokenType, init: bool)
    requires Shaped(operand, k, init) && !IsOp(k)
    ensures ShapedBase(SizeofOf(operand), k, init) && ShapedBase(NameofOf(operand), k, init)
    ensures ShapedBase(Named(name, operand), k, init)
  {
    hide OpLevel;
  }

  lemma PtrOpShape(op: TokenType, operand: Expr, k: TokenType, init: bool)
    requires IsPtrOp(op) && Shaped(operand, k, init) && Level(operand) == 9
    ensures ShapedBase(PtrOp(op, operand), k, init)
  {
    hide OpLevel;
  }

  lemma EnclosedShape(inner: Expr, close: TokenType, k: TokenType, init: bool)
    requires Shaped(inner, close, init)
    ensures ShapedBase(Group(inner), k, init) && ShapedBase(Abs(inner), k, init)
  {
    hide OpLevel;
  }

  lemma LeafShape(kind: TokenType, name: string, k: TokenType, init: bool)
    ensures IsAttribute(kind) ==> ShapedBase(Keyword(kind), k, init)
    ensures ShapedBase(Packed, k, init)
    ensures k != COLON && !(init && k == LEFT_BRACE) ==> ShapedBase(Symbol(name), k, init)
  {
    hide OpLevel;
  }

  lemma BracedShape(elements: seq<Expr>, name: string, k: TokenType, init: bool)
    requires forall e :: e in elements ==> WellFormed(e, init)
    ensures ShapedBase(AnonInit(elements), k, init)
    ensures init ==> ShapedBase(StructLiteral(name, elements), k, init)
    ensures elements != [] ==> ShapedBase(ArrayLiteral(elements), k, init)
  {
    hide OpLevel;
  }

  // ------------------------------------------------------------- productions

  lemma SpelledOut(k: TokenType)
    requires IsOp(k) || IsPrefix(k) || IsAccess(k) || IsPtrOp(k) || IsAttribute(k)
    ensures Spelling(k) != "" && k != COMMA && k != ERROR
  {
  }

  lemma PunctuationSpelled(k: TokenType)
    requires || k == LEFT_PAREN || k == RIGHT_PAREN || k == LEFT_BRACE || k == RIGHT_BRACE
             || k == LEFT_BRACKET || k == RIGHT_BRACKET
             || k == COLON || k == PIPE || k == ELLIPSE || k == SIZEOF || k == NAMEOF || k == COMMA
    ensures Spelling(k) != "" && k != ERROR
  {
  }

  /** A successful result at a binary level. */
  predicate GoodAt(ts: seq<Token>, r: Parsed, level: nat, init: bool) {
    r.Ok? ==> Good(ts, r.tree, r.rest, init) && Level(r.tree) >= level && !(level <= OpLevel(Peek(r.rest)) < 8)
  }

  lemma {:induction false} LevelSound(ts: seq<Token>, level: nat, init: bool)
    requires level <= 8 && AllCanonical(ts)
    ensures GoodAt(ts, ParseLevel(ts, level, init), level, init)
    decreases |ts|, 20 - level
  {
    hide Good, ParseFold, ParseUnary, Level, OpLevel;
    if level == 8 {
      UnarySound(ts, init);
    } else {
      LevelSound(ts, level + 1, init);
      var first := ParseLevel(ts, level + 1, init);
      if first.Ok? {
        FoldSound(ts, first.tree, first.rest, level, init);
      }
    }
  }

  lemma {:induction false} FoldSound(start: seq<Token>, left: Expr, ts: seq<Token>, level: nat, init: bool)
    requires level < 8 && Good(start, left, ts, init) && Level(left) >= level && !(level < OpLevel(Peek(ts)) < 8)
    ensures GoodAt(start, ParseFold(left, ts, level, init), level, init)
    decreases |ts|, 0
  {
    CanonicalRest(start, left, ts, init);
    OpIsToken(ts);
    FoldEnds(left, ts, level, init);
    hide ParseLevel, ParseFold, Good, OpLevel, Level, AllCanonical, Peek;
    if OpLevel(Peek(ts)) == level {
      var right := ParseLevel(ts[1..], level + 1, init);
      LevelSound(ts[1..], level + 1, init);
      if right.Ok? {
        BinaryGood(start, left, ts, right.tree, right.rest, level, init);
        FoldStep(left, ts, level, right.tree, right.rest, init);
        FoldSound(start, Binary(left, Peek(ts), right.tree), right.rest, level, init);
      }
    }
  }

  lemma OpIsToken(ts: seq<Token>)
    ensures OpLevel(Peek(ts)) < 8 ==> ts != []
  {
  }

  lemma CanonicalRest(start: seq<Token>, e: Expr, ts: seq<Token>, init: bool)
    requires Good(start, e, ts, init)
    ensures AllCanonical(ts) && (ts != [] ==> AllCanonical(ts[1..]))
  {
  }

  lemma BinaryGood(start: seq<Token>, left: Expr, ts: seq<Token>, right: Expr, rest: seq<Token>, level: nat, init: bool)
    requires level < 8 && Good(start, left, ts, init) && Level(left) >= level && OpLevel(Peek(ts)) == level
    requires ts != [] && Good(ts[1..], right, rest, init) && Level(right) > level
    ensures Good(start, Binary(left, Peek(ts), right), rest, init)
    ensures Level(Binary(left, Peek(ts), right)) == level
  {
    hide Spelling, Reads, WellFormed, Stops, InnerStops, Shaped, ShapedBase, IsBase;
    BinaryShape(left, Peek(ts), right, Peek(rest), init);
    SpelledOut(Peek(ts));
    ReadsFixed(ts);
    ReadsJoin(ts, ts[1..], rest, [Fixed(Peek(ts))], Flatten(right));
    ReadsJoin(start, ts, rest, Flatten(left), [Fixed(Peek(ts))] + Flatten(right));
  }

  lemma {:induction false} UnarySound(ts: seq<Token>, init: bool)
    requires AllCanonical(ts)
    ensures var r := ParseUnary(ts, init);
            r.Ok? ==> Good(ts, r.tree, r.rest, init) && Level(r.tree) >= 8
    decreases |ts|, 11
  {
    hide ParsePrimary, Good, WellFormed;
    if IsPrefix(Peek(ts)) {
      UnarySound(ts[1..], init);
      var r := ParseUnary(ts[1..], init);
      if r.Ok? { UnaryGood(ts, r.tree, r.rest, init); }
    } else {
      PrimarySound(ts, init);
    }
  }

  lemma UnaryGood(ts: seq<Token>, right: Expr, rest: seq<Token>, init: bool)
    requires ts != [] && AllCanonical(ts) && IsPrefix(Peek(ts)) && Good(ts[1..], right, rest, init) && Level(right) >= 8
    ensures Good(ts, Unary(Peek(ts), right), rest, init)
  {
    hide Spelling, Reads, WellFormed, Stops, InnerStops, Shaped, ShapedBase, IsBase;
    UnaryShape(Peek(ts), right, Peek(rest), init);
    SpelledOut(Peek(ts));
    ReadsFixed(ts);
    ReadsJoin(ts, ts[1..], rest, [Fixed(Peek(ts))], Flatten(right));
  }

  lemma {:induction false} PrimarySound(ts: seq<Token>, init: bool)
    requires AllCanonical(ts)
    ensures var r := ParsePrimary(ts, init);
            r.Ok? ==> Good(ts, r.tree, r.rest, init) && Level(r.tree) == 9
    decreases |ts|, 10
  {
    hide ParseInner, ParsePostfix, GoodBase;
    if StartsInner(Peek(ts)) {
      InnerSound(ts, init);
      var inner := ParseInner(ts, init);
      if inner.Ok? { PostfixSound(ts, inner.tree, inner.rest, init); }
    } else if IsLiteral(Peek(ts)) {
      ReadsOne(ts);
      assert Canonical(ts[0]);
      CanonicalSuffix(ts, ts[1..]);
    }
  }

  /** A base that no postfix follows is an expression. */
  lemma BaseGood(ts: seq<Token>, e: Expr, rest: seq<Token>, init: bool)
    requires GoodBase(ts, e, rest, init) && !IsPostfix(Peek(rest))
    ensures Good(ts, e, rest, init) && Level(e) == 9
  {
  }

  lemma {:induction false} PostfixSound(start: seq<Token>, lhs: Expr, ts: seq<Token>, init: bool)
    requires GoodBase(start, lhs, ts, init)
    ensures var r := ParsePostfix(lhs, ts, init);
            r.Ok? ==> Good(start, r.tree, r.rest, init) && Level(r.tree) == 9
    decreases |ts|, 9
  {
    hide GoodBase, Good, ParseLevel, ParsePrimary, ParseList, ParseSliceEnd, Level;
    CanonicalBase(start, lhs, ts, init);
    if Peek(ts) == LEFT_BRACKET {
      BracketSound(start, lhs, ts, init);
    } else if IsAccess(Peek(ts)) {
      PrimarySound(ts[1..], init);
      var r := ParsePrimary(ts[1..], init);
      if r.Ok? { MemberGood(start, lhs, ts, r.tree, r.rest, init); }
    } else if Peek(ts) == LEFT_PAREN {
      ListSound(ts[1..], RIGHT_PAREN, init);
      var r := ParseList(ts[1..], RIGHT_PAREN, init);
      if r.OkList? && Peek(r.after) == RIGHT_PAREN { CallGood(start, lhs, ts, r.trees, r.after, init); }
    } else {
      BaseGood(start, lhs, ts, init);
    }
  }

  lemma CanonicalBase(start: seq<Token>, e: Expr, ts: seq<Token>, init: bool)
    requires GoodBase(start, e, ts, init)
    ensures AllCanonical(ts) && (ts != [] ==> AllCanonical(ts[1..]))
  {
  }

  lemma MemberGood(start: seq<Token>, lhs: Expr, ts: seq<Token>, accessor: Expr, rest: seq<Token>, init: bool)
    requires GoodBase(start, lhs, ts, init) && IsAccess(Peek(ts))
    requires ts != [] && Good(ts[1..], accessor, rest, init) && Level(accessor) == 9
    ensures Good(start, Member(lhs, Peek(ts), accessor), rest, init)
    ensures Level(Member(lhs, Peek(ts), accessor)) == 9
  {
    hide Spelling, Reads, WellFormed, Stops, InnerStops, Shaped, ShapedBase, IsBase;
    MemberShape(lhs, Peek(ts), accessor, Peek(rest), init);
    SpelledOut(Peek(ts));
    ReadsFixed(ts);
    ReadsJoin(ts, ts[1..], rest, [Fixed(Peek(ts))], Flatten(accessor));
    ReadsJoin(start, ts, rest, Flatten(lhs), [Fixed(Peek(ts))] + Flatten(accessor));
  }

  /** A list and its closing token have been read. */
  predicate GoodList(ts: seq<Token>, es: seq<Expr>, after: seq<Token>, init: bool) {
    && (forall e :: e in es ==> WellFormed(e, init))
    && after != [] && AllCanonical(after[1..])
    && Reads(ts, after[1..], FlattenList(es) + [Fixed(Peek(after))])
  }

  lemma CallGood(start: seq<Token>, lhs: Expr, ts: seq<Token>, args: seq<Expr>, after: seq<Token>, init: bool)
    requires GoodBase(start, lhs, ts, init) && ts != [] && Peek(ts) == LEFT_PAREN
    requires GoodList(ts[1..], args, after, init) && Peek(after) == RIGHT_PAREN
    ensures Good(start, Call(lhs, args), after[1..], init)
    ensures Level(Call(lhs, args)) == 9
  {
    hide Spelling, Reads, WellFormed, Stops, InnerStops, Shaped, ShapedBase, IsBase;
    CallShape(lhs, args, Peek(after[1..]), init);
    PunctuationSpelled(LEFT_PAREN);
    ReadsFixed(ts);
    var inside := FlattenList(args) + [Fixed(RIGHT_PAREN)];
    ReadsJoin(ts, ts[1..], after[1..], [Fixed(LEFT_PAREN)], inside);
    ReadsJoin(start, ts, after[1..], Flatten(lhs), [Fixed(LEFT_PAREN)] + inside);
    assert [Fixed(LEFT_PAREN)] + inside == [Fixed(LEFT_PAREN)] + FlattenList(args) + [Fixed(RIGHT_PAREN)];
  }

  lemma {:induction false} BracketSound(start: seq<Token>, lhs: Expr, ts: seq<Token>, init: bool)
    requires GoodBase(start, lhs, ts, init) && ts != [] && Peek(ts) == LEFT_BRACKET
    ensures var r := ParsePostfix(lhs, ts, init);
            r.Ok? ==> Good(start, r.tree, r.rest, init) && Level(r.tree) == 9
    decreases |ts|, 8
  {
    hide GoodBase, Good, ParseLevel, ParsePrimary, ParseList, ParseSliceEnd, Level, OpLevel;
    CanonicalBase(start, lhs, ts, init);
    if Peek(ts[1..]) == COLON {
      SliceOpens(start, lhs, ts, Absent, ts[1..], init);
      assert ts[1..][1..] == ts[2..];
      SliceEndSound(start, lhs, Absent, ts[2..], init);
    } else {
      OpenedSound(start, lhs, ts, init);
    }
  }

  /** A bracket with an expression in it, or before the colon of a slice. */
  lemma {:induction false} OpenedSound(start: seq<Token>, lhs: Expr, ts: seq<Token>, init: bool)
    requires GoodBase(start, lhs, ts, init) && AllCanonical(ts)
    requires ts != [] && Peek(ts) == LEFT_BRACKET && Peek(ts[1..]) != COLON
    ensures var r := ParsePostfix(lhs, ts, init);
            r.Ok? ==> Good(start, r.tree, r.rest, init) && Level(r.tree) == 9
    decreases |ts|, 7
  {
    hide GoodBase, Good, ParseLevel, ParsePrimary, ParseList, ParseSliceEnd, Level, OpLevel;
    LevelSound(ts[1..], 0, init);
    var i := ParseLevel(ts[1..], 0, init);
    if i.Ok? && Peek(i.rest) == COLON {
      SliceOpens(start, lhs, ts, Given(i.tree), i.rest, init);
      SliceEndSound(start, lhs, Given(i.tree), i.rest[1..], init);
    } else if i.Ok? && Peek(i.rest) == RIGHT_BRACKET {
      IndexGood(start, lhs, ts, i.tree, i.rest, init);
      PostfixSound(start, Index(lhs, i.tree), i.rest[1..], init);
    }
  }

  lemma IndexGood(start: seq<Token>, lhs: Expr, ts: seq<Token>, index: Expr, rest: seq<Token>, init: bool)
    requires GoodBase(start, lhs, ts, init) && ts != [] && Peek(ts) == LEFT_BRACKET
    requires Good(ts[1..], index, rest, init) && rest != [] && Peek(rest) == RIGHT_BRACKET
    ensures GoodBase(start, Index(lhs, index), rest[1..], init)
  {
    hide Spelling, Reads, WellFormed, Stops, InnerStops, Shaped, ShapedBase, IsBase;
    IndexShape(lhs, index, Peek(rest[1..]), init);
    PunctuationSpelled(LEFT_BRACKET);
    PunctuationSpelled(RIGHT_BRACKET);
    var open, close := [Fixed(LEFT_BRACKET)], [Fixed(RIGHT_BRACKET)];
    ReadsFixed(ts);
    ReadsFixed(rest);
    ReadsJoin(ts, ts[1..], rest, open, Flatten(index));
    ReadsJoin(ts, rest, rest[1..], open + Flatten(index), close);
    ReadsJoin(start, ts, rest[1..], Flatten(lhs), open + Flatten(index) + close);
  }

  /** A base, the bracket, what may come before the colon, and the colon have been read. */
  predicate GoodSlice(start: seq<Token>, lhs: Expr, from: Maybe, ts: seq<Token>, init: bool) {
    && ShapedBase(lhs, LEFT_BRACKET, init)
    && (from.Given? ==> Shaped(from.expr, COLON, init))
    && AllCanonical(ts)
    && Reads(start, ts, Flatten(lhs) + ([Fixed(LEFT_BRACKET)] + FlattenMaybe(from) + [Fixed(COLON)]))
  }

  lemma SliceOpens(start: seq<Token>, lhs: Expr, ts: seq<Token>, from: Maybe, colon: seq<Token>, init: bool)
    requires GoodBase(start, lhs, ts, init) && ts != [] && Peek(ts) == LEFT_BRACKET
    requires if from.Given? then Good(ts[1..], from.expr, colon, init) else colon == ts[1..]
    requires colon != [] && Peek(colon) == COLON
    ensures GoodSlice(start, lhs, from, colon[1..], init)
  {
    hide Spelling, Reads, WellFormed, Stops, InnerStops, Shaped, ShapedBase, IsBase;
    PunctuationSpelled(LEFT_BRACKET);
    PunctuationSpelled(COLON);
    var open := [Fixed(LEFT_BRACKET)];
    ReadsFixed(ts);
    ReadsFixed(colon);
    ReadsNone(colon);
    ReadsJoin(ts, ts[1..], colon, open, FlattenMaybe(from));
    ReadsJoin(ts, colon, colon[1..], open + FlattenMaybe(from), [Fixed(COLON)]);
    ReadsJoin(start, ts, colon[1..], Flatten(lhs), open + FlattenMaybe(from) + [Fixed(COLON)]);
  }

  lemma {:induction false} SliceEndSound(start: seq<Token>, lhs: Expr, from: Maybe, ts: seq<Token>, init: bool)
    requires GoodSlice(start, lhs, from, ts, init)
    ensures var r := ParseSliceEnd(lhs, from, ts, init);
            r.Ok? ==> Good(start, r.tree, r.rest, init) && Level(r.tree) == 9
    decreases |ts|, 21
  {
    assert AllCanonical(ts);
    hide GoodSlice, Good, ParseLevel, ParsePostfix, Level, OpLevel;
    if Peek(ts) == RIGHT_BRACKET {
      SliceCloses(start, lhs, from, ts, Absent, ts, init);
      PostfixSound(start, Slice(lhs, from, Absent), ts[1..], init);
    } else {
      LevelSound(ts, 0, init);
      var e := ParseLevel(ts, 0, init);
      if e.Ok? && Peek(e.rest) == RIGHT_BRACKET {
        SliceCloses(start, lhs, from, ts, Given(e.tree), e.rest, init);
        PostfixSound(start, Slice(lhs, from, Given(e.tree)), e.rest[1..], init);
      }
    }
  }

  lemma SliceCloses(start: seq<Token>, lhs: Expr, from: Maybe, ts: seq<Token>, to: Maybe, close: seq<Token>, init: bool)
    requires GoodSlice(start, lhs, from, ts, init)
    requires if to.Given? then Good(ts, to.expr, close, init) else close == ts
    requires close != [] && Peek(close) == RIGHT_BRACKET
    ensures GoodBase(start, Slice(lhs, from, to), close[1..], init)
  {
    hide Spelling, Reads, WellFormed, Stops, InnerStops, Shaped, ShapedBase, IsBase;
    SliceShape(lhs, from, to, Peek(close[1..]), init);
    PunctuationSpelled(RIGHT_BRACKET);
    var open := Flatten(lhs) + ([Fixed(LEFT_BRACKET)] + FlattenMaybe(from) + [Fixed(COLON)]);
    ReadsFixed(close);
    ReadsNone(ts);
    ReadsJoin(start, ts, close, open, FlattenMaybe(to));
    ReadsJoin(start, close, close[1..], open + FlattenMaybe(to), [Fixed(RIGHT_BRACKET)]);
    SliceTokens(lhs, from, to);
    hide Flatten;
  }

  lemma SliceTokens(lhs: Expr, from: Maybe, to: Maybe)
    ensures Flatten(Slice(lhs, from, to)) ==
      Flatten(lhs) + ([Fixed(LEFT_BRACKET)] + FlattenMaybe(from) + [Fixed(COLON)])
        + FlattenMaybe(to) + [Fixed(RIGHT_BRACKET)]
  {
    hide Spelling, Fixed;
  }

  lemma {:induction false} ListSound(ts: seq<Token>, close: TokenType, init: bool)
    requires ClosesList(close) && AllCanonical(ts)
    ensures var r := ParseList(ts, close, init);
            r.OkList? && Peek(r.after) == close ==> GoodList(ts, r.trees, r.after, init)
    decreases |ts|, 21
  {
    hide Good, GoodList, ParseLevel, Level, OpLevel, Reads;
    if Peek(ts) == close {
      ListEmpty(ts, close, init);
    } else {
      LevelSound(ts, 0, init);
      var e := ParseLevel(ts, 0, init);
      if e.Ok? {
        CanonicalGood(ts, e.tree, e.rest, init);
        if Peek(e.rest) == COMMA {
          ListSound(e.rest[1..], close, init);
          var r := ParseList(e.rest[1..], close, init);
          if r.OkList? && Peek(r.after) == close {
            if Peek(e.rest[1..]) == close {
              assert r == OkList([], e.rest[1..]) && [e.tree] + r.trees == [e.tree];
              ListTrails(ts, e.tree, e.rest, init);
            } else {
              ListMore(ts, e.tree, e.rest, r.trees, r.after, init);
            }
          }
        } else if Peek(e.rest) == close {
          ListLast(ts, e.tree, e.rest, init);
        }
      }
    }
  }

  lemma CanonicalGood(ts: seq<Token>, e: Expr, rest: seq<Token>, init: bool)
    requires Good(ts, e, rest, init)
    ensures AllCanonical(rest) && (rest != [] ==> AllCanonical(rest[1..]))
  {
  }

  lemma ListEmpty(ts: seq<Token>, close: TokenType, init: bool)
    requires ClosesList(close) && AllCanonical(ts) && Peek(ts) == close
    ensures GoodList(ts, [], ts, init)
  {
    hide Spelling, Reads, WellFormed, Stops;
    PunctuationSpelled(RIGHT_PAREN);
    PunctuationSpelled(RIGHT_BRACE);
    ReadsFixed(ts);
    assert FlattenList([]) + [Fixed(close)] == [Fixed(close)];
  }

  lemma ListLast(ts: seq<Token>, e: Expr, rest: seq<Token>, init: bool)
    requires Good(ts, e, rest, init) && (ClosesList(Peek(rest)) || Peek(rest) == RIGHT_BRACKET)
    ensures GoodList(ts, [e], rest, init)
  {
    hide Spelling, Reads, WellFormed, Stops;
    PunctuationSpelled(Peek(rest));
    ReadsFixed(rest);
    ReadsJoin(ts, rest, rest[1..], Flatten(e), [Fixed(Peek(rest))]);
    assert FlattenList([e]) == Flatten(e);
  }

  lemma ListTrails(ts: seq<Token>, e: Expr, rest: seq<Token>, init: bool)
    requires Good(ts, e, rest, init) && |rest| >= 2 && Peek(rest) == COMMA && ClosesList(Peek(rest[1..]))
    ensures GoodList(ts, [e], rest[1..], init)
  {
    hide Spelling, Reads, WellFormed, Stops;
    PunctuationSpelled(Peek(rest[1..]));
    assert rest[1] in rest && Canonical(rest[1]);
    assert rest[1] == Fixed(Peek(rest[1..]));
    CanonicalSuffix(rest, rest[1..][1..]);
    ReadsTrailing(rest);
    ReadsJoin(ts, rest, rest[1..][1..], Flatten(e), [rest[1]]);
    assert FlattenList([e]) == Flatten(e);
  }

  lemma ListMore(ts: seq<Token>, e: Expr, rest: seq<Token>, more: seq<Expr>, after: seq<Token>, init: bool)
    requires Good(ts, e, rest, init) && rest != [] && Peek(rest) == COMMA && more != []
    requires GoodList(rest[1..], more, after, init)
    ensures GoodList(ts, [e] + more, after, init)
  {
    hide Spelling, Reads, WellFormed, Stops;
    PunctuationSpelled(COMMA);
    assert rest[0] in rest && Canonical(rest[0]);
    assert rest[0] == Fixed(COMMA);
    FirstToken(more[0], init);
    FlattenListCases(more);
    FlattenListCases([e] + more);
    var tail := FlattenList(more) + [Fixed(Peek(after))];
    assert tail[0] == Flatten(more[0])[0];
    ReadsComma(rest, after[1..], tail);
    ReadsJoin(ts, rest, after[1..], Flatten(e), [Fixed(COMMA)] + tail);
    assert ([e] + more)[1..] == more;
    assert Flatten(e) + ([Fixed(COMMA)] + tail) == FlattenList([e] + more) + [Fixed(Peek(after))];
  }

  lemma {:induction false} ElementsSound(ts: seq<Token>, init: bool)
    requires AllCanonical(ts)
    ensures var r := ParseElements(ts, init);
            r.OkList? && Peek(r.after) == RIGHT_BRACKET ==> GoodList(ts, r.trees, r.after, init) && r.trees != []
    decreases |ts|, 21
  {
    hide Good, GoodList, ParseLevel, Level, OpLevel, Reads;
    LevelSound(ts, 0, init);
    var e := ParseLevel(ts, 0, init);
    if e.Ok? {
      CanonicalGood(ts, e.tree, e.rest, init);
      if Peek(e.rest) == COMMA {
        ElementsSound(e.rest[1..], init);
        var r := ParseElements(e.rest[1..], init);
        if r.OkList? && Peek(r.after) == RIGHT_BRACKET {
          ListMore(ts, e.tree, e.rest, r.trees, r.after, init);
        }
      } else if Peek(e.rest) == RIGHT_BRACKET {
        ListLast(ts, e.tree, e.rest, init);
      }
    }
  }

  lemma {:induction false} InnerSound(ts: seq<Token>, init: bool)
    requires AllCanonical(ts) && StartsInner(Peek(ts))
    ensures var r := ParseInner(ts, init);
            r.Ok? ==> GoodBase(ts, r.tree, r.rest, init)
    decreases |ts|, 9
  {
    assert AllCanonical(ts[1..]);
    hide Good, GoodBase, Level, OpLevel, ParseLevel, ParsePrimary, ParseEnclosed, ParseIdentifier, ParseBraced,
         AllCanonical;
    var kind := Peek(ts);
    if kind == LEFT_PAREN || kind == PIPE {
      EnclosedSound(ts, init);
    } else if kind == IDENTIFIER {
      IdentifierSound(ts, init);
    } else if kind == SIZEOF || kind == NAMEOF {
      LevelSound(ts[1..], 0, init);
      var e := ParseLevel(ts[1..], 0, init);
      if e.Ok? { OperatorGood(ts, e.tree, e.rest, init); }
    } else if kind == CAST {
    } else if IsAttribute(kind) || kind == ELLIPSE {
      LeafGood(ts, init);
    } else if IsPtrOp(kind) {
      PrimarySound(ts[1..], init);
      var e := ParsePrimary(ts[1..], init);
      if e.Ok? { PtrOpGood(ts, e.tree, e.rest, init); }
    } else {
      BracedSound(ts, init);
    }
  }

  lemma LeafGood(ts: seq<Token>, init: bool)
    requires ts != [] && AllCanonical(ts) && (IsAttribute(Peek(ts)) || Peek(ts) == ELLIPSE)
    ensures GoodBase(ts, if Peek(ts) == ELLIPSE then Packed else Keyword(Peek(ts)), ts[1..], init)
  {
    hide Spelling, Reads, WellFormed, Stops, InnerStops, Shaped, ShapedBase, IsBase;
    LeafShape(Peek(ts), "", Peek(ts[1..]), init);
    PunctuationSpelled(ELLIPSE);
    if IsAttribute(Peek(ts)) { SpelledOut(Peek(ts)); }
    ReadsFixed(ts);
  }

  lemma OperatorGood(ts: seq<Token>, operand: Expr, rest: seq<Token>, init: bool)
    requires ts != [] && AllCanonical(ts) && (Peek(ts) == SIZEOF || Peek(ts) == NAMEOF)
    requires Good(ts[1..], operand, rest, init) && !IsOp(Peek(rest))
    ensures GoodBase(ts, if Peek(ts) == SIZEOF then SizeofOf(operand) else NameofOf(operand), rest, init)
  {
    hide Spelling, Reads, WellFormed, Stops, InnerStops, Shaped, ShapedBase, IsBase;
    OperatorShape(operand, "", Peek(rest), init);
    PunctuationSpelled(SIZEOF);
    PunctuationSpelled(NAMEOF);
    ReadsFixed(ts);
    ReadsJoin(ts, ts[1..], rest, [Fixed(Peek(ts))], Flatten(operand));
  }

  lemma PtrOpGood(ts: seq<Token>, operand: Expr, rest: seq<Token>, init: bool)
    requires ts != [] && AllCanonical(ts) && IsPtrOp(Peek(ts))
    requires Good(ts[1..], operand, rest, init) && Level(operand) == 9
    ensures GoodBase(ts, PtrOp(Peek(ts), operand), rest, init)
  {
    hide Spelling, Reads, WellFormed, Stops, InnerStops, Shaped, ShapedBase, IsBase;
    PtrOpShape(Peek(ts), operand, Peek(rest), init);
    SpelledOut(Peek(ts));
    ReadsFixed(ts);
    ReadsJoin(ts, ts[1..], rest, [Fixed(Peek(ts))], Flatten(operand));
  }

  lemma {:induction false} EnclosedSound(ts: seq<Token>, init: bool)
    requires AllCanonical(ts) && (Peek(ts) == LEFT_PAREN || Peek(ts) == PIPE)
    ensures var r := ParseEnclosed(ts, init);
            r.Ok? ==> GoodBase(ts, r.tree, r.rest, init)
    decreases |ts|, 8
  {
    assert AllCanonical(ts[1..]);
    hide Good, GoodBase, Level, OpLevel, ParseLevel;
    LevelSound(ts[1..], 0, init);
    var e := ParseLevel(ts[1..], 0, init);
    if e.Ok? && e.rest != [] && Peek(e.rest) == (if Peek(ts) == LEFT_PAREN then RIGHT_PAREN else PIPE) {
      EnclosedGood(ts, e.tree, e.rest, init);
    }
  }

  lemma EnclosedGood(ts: seq<Token>, inner: Expr, rest: seq<Token>, init: bool)
    requires ts != [] && AllCanonical(ts) && (Peek(ts) == LEFT_PAREN || Peek(ts) == PIPE)
    requires Good(ts[1..], inner, rest, init) && rest != []
    requires Peek(rest) == if Peek(ts) == LEFT_PAREN then RIGHT_PAREN else PIPE
    ensures GoodBase(ts, if Peek(ts) == LEFT_PAREN then Group(inner) else Abs(inner), rest[1..], init)
  {
    hide Spelling, Reads, WellFormed, Stops, InnerStops, Shaped, ShapedBase, IsBase;
    EnclosedShape(inner, Peek(rest), Peek(rest[1..]), init);
    PunctuationSpelled(LEFT_PAREN);
    PunctuationSpelled(RIGHT_PAREN);
    PunctuationSpelled(PIPE);
    ReadsFixed(ts);
    ReadsFixed(rest);
    ReadsJoin(ts, ts[1..], rest, [Fixed(Peek(ts))], Flatten(inner));
    ReadsJoin(ts, rest, rest[1..], [Fixed(Peek(ts))] + Flatten(inner), [Fixed(Peek(rest))]);
  }

  lemma {:induction false} IdentifierSound(ts: seq<Token>, init: bool)
    requires AllCanonical(ts) && Peek(ts) == IDENTIFIER
    ensures var r := ParseIdentifier(ts, init);
            r.Ok? ==> GoodBase(ts, r.tree, r.rest, init)
    decreases |ts|, 8
  {
    assert AllCanonical(ts[1..]) && (|ts| > 1 ==> AllCanonical(ts[1..][1..]));
    hide Good, GoodBase, GoodList, Level, OpLevel, ParseLevel, ParseList;
    var tail := ts[1..];
    if Peek(tail) == COLON {
      LevelSound(tail[1..], 0, init);
      var e := ParseLevel(tail[1..], 0, init);
      if e.Ok? { NamedGood(ts, e.tree, e.rest, init); }
    } else if init && Peek(tail) == LEFT_BRACE {
      ListSound(tail[1..], RIGHT_BRACE, init);
      var r := ParseList(tail[1..], RIGHT_BRACE, init);
      if r.OkList? && Peek(r.after) == RIGHT_BRACE { StructGood(ts, r.trees, r.after); }
    } else {
      SymbolGood(ts, init);
    }
  }

  lemma NamedGood(ts: seq<Token>, value: Expr, rest: seq<Token>, init: bool)
    requires |ts| >= 2 && AllCanonical(ts) && Peek(ts) == IDENTIFIER && Peek(ts[1..]) == COLON
    requires Good(ts[1..][1..], value, rest, init) && !IsOp(Peek(rest))
    ensures GoodBase(ts, Named(ts[0].lexeme, value), rest, init)
  {
    hide Spelling, Reads, WellFormed, Stops, InnerStops, Shaped, ShapedBase, IsBase;
    OperatorShape(value, ts[0].lexeme, Peek(rest), init);
    PunctuationSpelled(COLON);
    ReadsOne(ts);
    ReadsFixed(ts[1..]);
    ReadsJoin(ts, ts[1..], ts[1..][1..], [ts[0]], [Fixed(COLON)]);
    ReadsJoin(ts, ts[1..][1..], rest, [ts[0]] + [Fixed(COLON)], Flatten(value));
    assert [ts[0]] + [Fixed(COLON)] == [Token(IDENTIFIER, ts[0].lexeme), Fixed(COLON)];
  }

  lemma StructGood(ts: seq<Token>, elements: seq<Expr>, after: seq<Token>)
    requires |ts| >= 2 && AllCanonical(ts) && Peek(ts) == IDENTIFIER && Peek(ts[1..]) == LEFT_BRACE
    requires GoodList(ts[1..][1..], elements, after, true) && Peek(after) == RIGHT_BRACE
    ensures GoodBase(ts, StructLiteral(ts[0].lexeme, elements), after[1..], true)
  {
    hide Spelling, Reads, WellFormed, Stops, InnerStops, Shaped, ShapedBase, IsBase;
    BracedShape(elements, ts[0].lexeme, Peek(after[1..]), true);
    PunctuationSpelled(LEFT_BRACE);
    var open := [Token(IDENTIFIER, ts[0].lexeme), Fixed(LEFT_BRACE)];
    ReadsOne(ts);
    ReadsFixed(ts[1..]);
    ReadsJoin(ts, ts[1..], ts[1..][1..], [ts[0]], [Fixed(LEFT_BRACE)]);
    assert [ts[0]] + [Fixed(LEFT_BRACE)] == open;
    ReadsJoin(ts, ts[1..][1..], after[1..], open, FlattenList(elements) + [Fixed(RIGHT_BRACE)]);
    assert open + (FlattenList(elements) + [Fixed(RIGHT_BRACE)]) == open + FlattenList(elements) + [Fixed(RIGHT_BRACE)];
  }

  lemma SymbolGood(ts: seq<Token>, init: bool)
    requires ts != [] && AllCanonical(ts) && Peek(ts) == IDENTIFIER
    requires Peek(ts[1..]) != COLON && !(init && Peek(ts[1..]) == LEFT_BRACE)
    ensures GoodBase(ts, Symbol(ts[0].lexeme), ts[1..], init)
  {
    hide Spelling, Reads, WellFormed, Stops, InnerStops, Shaped, ShapedBase, IsBase;
    LeafShape(IDENTIFIER, ts[0].lexeme, Peek(ts[1..]), init);
    ReadsOne(ts);
  }

  lemma {:induction false} BracedSound(ts: seq<Token>, init: bool)
    requires AllCanonical(ts) && (Peek(ts) == LEFT_BRACE || Peek(ts) == LEFT_BRACKET)
    ensures var r := ParseBraced(ts, init);
            r.Ok? ==> GoodBase(ts, r.tree, r.rest, init)
    decreases |ts|, 8
  {
    assert AllCanonical(ts[1..]);
    hide GoodBase, GoodList, ParseList, ParseElements;
    if Peek(ts) == LEFT_BRACE {
      ListSound(ts[1..], RIGHT_BRACE, init);
      var r := ParseList(ts[1..], RIGHT_BRACE, init);
      if r.OkList? && Peek(r.after) == RIGHT_BRACE { BracedGood(ts, r.trees, r.after, init); }
    } else {
      ElementsSound(ts[1..], init);
      var r := ParseElements(ts[1..], init);
      if r.OkList? && Peek(r.after) == RIGHT_BRACKET { BracedGood(ts, r.trees, r.after, init); }
    }
  }

  lemma BracedGood(ts: seq<Token>, elements: seq<Expr>, after: seq<Token>, init: bool)
    requires ts != [] && AllCanonical(ts) && GoodList(ts[1..], elements, after, init)
    requires || (Peek(ts) == LEFT_BRACE && Peek(after) == RIGHT_BRACE)
             || (Peek(ts) == LEFT_BRACKET && Peek(after) == RIGHT_BRACKET && elements != [])
    ensures GoodBase(ts, if Peek(ts) == LEFT_BRACE then AnonInit(elements) else ArrayLiteral(elements),
                     after[1..], init)
  {
    hide Spelling, Reads, WellFormed, Stops, InnerStops, Shaped, ShapedBase, IsBase;
    BracedShape(elements, "", Peek(after[1..]), init);
    PunctuationSpelled(LEFT_BRACE);
    PunctuationSpelled(LEFT_BRACKET);
    var inside := FlattenList(elements) + [Fixed(Peek(after))];
    ReadsFixed(ts);
    ReadsJoin(ts, ts[1..], after[1..], [Fixed(Peek(ts))], inside);
    assert [Fixed(Peek(ts))] + inside == [Fixed(Peek(ts))] + FlattenList(elements) + [Fixed(Peek(after))];
  }
}
