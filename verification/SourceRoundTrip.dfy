/** Printer, lexer and parser together: an expression printed as source text is read back. */
module SourceRoundTrip {
  import opened Options
  import opened Tokens
  import opened Lexing
  import opened LexRoundTrip
  import opened TokenStream
  import opened TextReading
  import opened SourceLexer
  import opened Expressions
  import opened ParserInverse
  import opened ParserSound
  import opened ParserTheorems
  import opened ExpressionParser

  /** The names and literals of the tree are ones a source can hold. */
  ghost predicate IsPrintable(e: Expr) {
    forall t :: t in Flatten(e) ==> Printable(t)
  }

  function Source(e: Expr): string {
    PrintAll(Flatten(e))
  }

  /** Parses the expression that a source text starts with. */
  ghost function ParseText(s: string, init: bool): Parsed {
    ParseLevel(TokensOf(s), 0, init)
  }

  /** The tokens of a printed tree are its own, and parsing them gives the tree. */
  lemma SourceReadsBack(e: Expr, init: bool)
    requires WellFormed(e, init) && IsPrintable(e)
    ensures TokensOf(Source(e)) == Flatten(e) && Clean(Source(e))
    ensures LexMany(Source(e), |Flatten(e)|) == Some((Flatten(e), ""))
    ensures ParseText(Source(e), init) == Ok(e, [])
  {
    hide Flatten, Printable, ParseLevel, WellFormed, TokensOf, Clean, LexMany;
    TokensReadBack(Flatten(e));
    TokensOfPrinted(Flatten(e));
    ParseFlattened(e, init);
  }

  /**
   Whatever the source text, errors of the lexer in it or not: a parsed tree respects precedence,
   and flattens to the tokens consumed if and only if no comma trails in a list.
   */
  lemma SourceConsumes(s: string, init: bool)
    requires ParseText(s, init).Ok?
    ensures var e, taken := ParseText(s, init).tree, Taken(TokensOf(s), ParseText(s, init).rest);
            && WellFormed(e, init) && Suffix(TokensOf(s), ParseText(s, init).rest) && Flatten(e) == Strip(taken)
            && (Flatten(e) == taken <==> NoTrailingComma(taken))
  {
    TokensOfLexed(s);
    hide Printable, Canonical, ParseLevel, TokensOf, WellFormed, Flatten, Strip;
    ParseConsumes(TokensOf(s), init);
  }

  /** Printing what was parsed from any source text, and reading it again, gives the same tree. */
  lemma SourceParsesAgain(s: string, init: bool)
    requires ParseText(s, init).Ok?
    ensures var e := ParseText(s, init).tree;
            IsPrintable(e) && ParseText(Source(e), init) == Ok(e, [])
  {
    var e, taken := ParseText(s, init).tree, Taken(TokensOf(s), ParseText(s, init).rest);
    SourceConsumes(s, init);
    TokensOfLexed(s);
    hide Printable, Canonical, ParseLevel, TokensOf, WellFormed, Flatten, Strip;
    FlattenNoErrors(e, init);
    StripSubset(taken);
    forall t | t in Flatten(e) ensures Printable(t) {
      assert t in taken && t in TokensOf(s);
    }
    SourceReadsBack(e, init);
  }

  lemma {:induction false} StripSubset(ts: seq<Token>)
    ensures forall t :: t in Strip(ts) ==> t in ts
  {
    if ts != [] { StripSubset(ts[1..]); }
  }

  // --------------------------------------------------------------- the classes

  /**
   The parser on a lexer of the source: it gives the tree of the specification, or its error, or
   reports an unknown character of the source. It gives a tree exactly where the specification
   does and no unknown character comes right after it. A printed tree is given back.
   */
  method ParseSource(source: string, buffer: Arena, canInitialize: bool) returns (r: Outcome<Expr>)
    requires buffer.Valid() && buffer.memory.Length < UNUSED
    requires buffer.occupied + |source| <= buffer.memory.Length
    modifies buffer, buffer.memory
    ensures
      var spec := ParseText(source, canInitialize);
      match r
      case Done(e) => spec.Ok? && e == spec.tree
      case Raised(BadCharacter) => !Clean(source) && (spec.Ok? ==> spec.rest == [])
      case Raised(error) => spec == Fail(error)
    ensures
      var spec := ParseText(source, canInitialize);
      r.Done? <==> spec.Ok? && (Clean(source) || spec.rest != [])
    ensures forall e :: WellFormed(e, canInitialize) && IsPrintable(e) && source == Source(e) ==> r == Done(e)
  {
    hide ParseLevel, WellFormed, IsPrintable, TokensOf, Clean, Source;
    var lexer := new Lexer(source, buffer);
    var parser := new Parser(lexer, canInitialize);
    assert parser.Rest() == TokensOf(source);
    r := parser.Expression();
    if r.Done? && parser.Rest() == [] { parser.EndSeen(); }
    forall e | WellFormed(e, canInitialize) && IsPrintable(e) && source == Source(e) ensures r == Done(e) {
      SourceReadsBack(e, canInitialize);
    }
  }

  // -------------------------------------------------------------- injectivity

  /** Different lists of tokens are printed differently. */
  lemma PrintInjective(ts: seq<Token>, us: seq<Token>)
    requires forall t :: t in ts ==> Printable(t)
    requires forall t :: t in us ==> Printable(t)
    requires PrintAll(ts) == PrintAll(us)
    ensures ts == us
  {
    TokensOfPrinted(ts);
    TokensOfPrinted(us);
  }

  /** No two trees are printed as the same text. */
  lemma SourceInjective(e: Expr, f: Expr, init: bool)
    requires WellFormed(e, init) && WellFormed(f, init) && IsPrintable(e) && IsPrintable(f)
    requires Source(e) == Source(f)
    ensures e == f
  {
    hide Flatten, Printable, WellFormed, PrintAll;
    PrintInjective(Flatten(e), Flatten(f));
    FlattenInjective(e, f, init);
  }
}
