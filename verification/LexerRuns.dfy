/**
 Runs of the lexer's window: whatever parsers ask of it, in whatever order, the answers are those
 of a cursor over the list of the source's tokens.
 */
module LexerRuns {
  import opened Tokens
  import opened Lexing
  import opened LexRoundTrip
  import opened SourceLexer
  import opened TextReading

  datatype Call =
    | PeekCall | PeekNextCall | PeekLastCall | AdvanceCall
    | MatchCall(kind: TokenType) | MatchNextCall(kind: TokenType)
    | MatchBothCall(first: TokenType, second: TokenType) | ExpectCall(kind: TokenType)

  /** An answer; an expectation that is not met raises an error at the current token. */
  datatype Answer<T> = Gave(token: T) | Said(yes: bool) | Raised(at: T)

  /** The text's token there has the type. */
  predicate HasKind(s: string, i: int, kind: TokenType) {
    i >= 0 && TokenAt(s, i).kind == kind
  }

  /** Where the cursor is after a call. Nothing but a move past a token moves it. */
  function Moved(s: string, cursor: int, call: Call): (r: int)
    requires cursor >= -1
    ensures r >= cursor
  {
    var c := Max(cursor, 0);
    match call
    case PeekCall => c
    case PeekNextCall => cursor
    case PeekLastCall => cursor
    case AdvanceCall => cursor + 1
    case MatchCall(kind) => if HasKind(s, c, kind) then c + 1 else c
    case MatchNextCall(kind) => if HasKind(s, cursor + 1, kind) then cursor + 1 else cursor
    case MatchBothCall(first, second) => if HasKind(s, c, first) && HasKind(s, c + 1, second) then c + 2 else c
    case ExpectCall(kind) => if HasKind(s, c, kind) then c + 1 else c
  }

  function Answered(s: string, cursor: int, call: Call): Answer<Token>
    requires cursor >= -1
  {
    var c := Max(cursor, 0);
    match call
    case PeekCall => Gave(TokenAt(s, c))
    case PeekNextCall => Gave(TokenAt(s, cursor + 1))
    case PeekLastCall => Gave(if cursor >= 1 then TokenAt(s, cursor - 1) else Token(TOKEN_ERROR, ""))
    case AdvanceCall => Gave(TokenAt(s, cursor + 1))
    case MatchCall(kind) => Said(HasKind(s, c, kind))
    case MatchNextCall(kind) => Said(HasKind(s, cursor + 1, kind))
    case MatchBothCall(first, second) => Said(HasKind(s, c, first) && HasKind(s, c + 1, second))
    case ExpectCall(kind) => if HasKind(s, c, kind) then Gave(TokenAt(s, c)) else Raised(TokenAt(s, c))
  }

  /** The text has the tokens that the call looks at. */
  ghost predicate Available(s: string, cursor: int, call: Call)
    requires cursor >= -1
  {
    var c := Max(cursor, 0);
    match call
    case PeekCall => Lexes(s, c + 1)
    case PeekNextCall => Lexes(s, cursor + 2)
    case PeekLastCall => true
    case AdvanceCall => Lexes(s, cursor + 2)
    case MatchCall(kind) => Lexes(s, c + 1) && (HasKind(s, c, kind) ==> Lexes(s, c + 2))
    case MatchNextCall(kind) => Lexes(s, cursor + 2)
    case MatchBothCall(first, second) =>
      Lexes(s, c + 1) && (HasKind(s, c, first) ==> Lexes(s, c + 2) && (HasKind(s, c + 1, second) ==> Lexes(s, c + 3)))
    case ExpectCall(kind) => Lexes(s, c + 1) && (HasKind(s, c, kind) ==> Lexes(s, c + 2))
  }

  /**
   How calls fit together: looking ahead shows the token moved to next, looking back the one
   moved from, and a match or an expectation that is met has just passed the token asked for.
   */
  lemma CallsFit(s: string, cursor: int, a: TokenType, b: TokenType)
    requires cursor >= -1
    ensures Answered(s, cursor, PeekNextCall) == Answered(s, cursor, AdvanceCall)
    ensures Answered(s, Moved(s, cursor, AdvanceCall), PeekCall) == Answered(s, cursor, AdvanceCall)
    ensures cursor >= 0 ==>
      Answered(s, Moved(s, cursor, AdvanceCall), PeekLastCall) == Answered(s, cursor, PeekCall)
    ensures Answered(s, cursor, MatchCall(a)) == Said(true) <==> Answered(s, cursor, PeekCall).token.kind == a
    ensures Answered(s, cursor, MatchCall(a)) == Said(true) ==>
      var next := Moved(s, cursor, MatchCall(a));
      Answered(s, next, PeekLastCall) == Answered(s, cursor, PeekCall) && Moved(s, cursor, ExpectCall(a)) == next
    ensures Answered(s, cursor, ExpectCall(a)).Gave? <==> Answered(s, cursor, MatchCall(a)) == Said(true)
    ensures Answered(s, cursor, MatchBothCall(a, b)) == Said(true) ==>
      var next := Moved(s, cursor, MatchCall(a));
      Answered(s, next, MatchCall(b)) == Said(true) &&
      Moved(s, cursor, MatchBothCall(a, b)) == Moved(s, next, MatchCall(b)) == next + 1
  {
    hide TokenAt;
  }

  /** A printed text has every token that any call looks at. */
  lemma PrintedAvailable(ts: seq<Token>, cursor: int, call: Call)
    requires (forall t :: t in ts ==> Printable(t)) && cursor >= -1
    ensures Available(PrintAll(ts), cursor, call)
  {
    hide Printable, PrintAll, LexMany, TokenAt;
    var c := Max(cursor, 0);
    PrintedTokens(ts, c + 1);
    PrintedTokens(ts, c + 2);
    PrintedTokens(ts, c + 3);
    PrintedTokens(ts, cursor + 2);
  }

  function MovedBy(s: string, calls: seq<Call>): (r: int)
    ensures r >= -1
  {
    if calls == [] then -1 else Moved(s, MovedBy(s, calls[..|calls| - 1]), calls[|calls| - 1])
  }

  /** The answer with its lexemes looked up in the source and the buffer. */
  predicate Shows(a: Answer<Lexeme>, b: Answer<Token>, source: string, written: string) {
    match b
    case Gave(t) => a.Gave? && Reads(a.token, t, source, written)
    case Said(yes) => a == Said(yes)
    case Raised(t) => a.Raised? && Reads(a.at, t, source, written)
  }

  lemma ShowsAfter(a: Answer<Lexeme>, b: Answer<Token>, source: string, written: string, more: string)
    requires Shows(a, b, source, written) && written <= more
    ensures Shows(a, b, source, more)
  {
  }

  method Perform(lexer: Lexer, call: Call) returns (ok: bool, answer: Answer<Lexeme>)
    requires lexer.Valid()
    modifies lexer, lexer.reader, lexer.buffer, lexer.buffer.memory
    ensures lexer.buffer.Valid() && old(lexer.buffer.Written()) <= lexer.buffer.Written()
    ensures ok ==>
      && lexer.Valid() && lexer.Cursor() == Moved(lexer.reader.source, old(lexer.Cursor()), call)
      && Shows(answer, Answered(lexer.reader.source, old(lexer.Cursor()), call),
               lexer.reader.source, lexer.buffer.Written())
    ensures ok <==> Available(lexer.reader.source, old(lexer.Cursor()), call)
  {
    hide LexOne, LexMany, TokenAt, Lexes;
    match call
    case PeekCall =>
      var l;
      ok, l := lexer.Peek();
      answer := Gave(l);
    case PeekNextCall =>
      var l;
      ok, l := lexer.PeekNext();
      answer := Gave(l);
    case PeekLastCall =>
      var l := lexer.PeekLast();
      ok, answer := true, Gave(l);
    case AdvanceCall =>
      var l;
      ok, l := lexer.Advance();
      answer := Gave(l);
    case _ =>
      ok, answer := PerformMatch(lexer, call);
  }

  predicate Matching(call: Call) {
    call.MatchCall? || call.MatchNextCall? || call.MatchBothCall? || call.ExpectCall?
  }

  /** The calls that look for types. */
  method PerformMatch(lexer: Lexer, call: Call) returns (ok: bool, answer: Answer<Lexeme>)
    requires lexer.Valid() && Matching(call)
    modifies lexer, lexer.reader, lexer.buffer, lexer.buffer.memory
    ensures lexer.buffer.Valid() && old(lexer.buffer.Written()) <= lexer.buffer.Written()
    ensures ok ==>
      && lexer.Valid() && lexer.Cursor() == Moved(lexer.reader.source, old(lexer.Cursor()), call)
      && Shows(answer, Answered(lexer.reader.source, old(lexer.Cursor()), call),
               lexer.reader.source, lexer.buffer.Written())
    ensures ok <==> Available(lexer.reader.source, old(lexer.Cursor()), call)
  {
    hide LexOne, LexMany, TokenAt, Lexes;
    match call
    case MatchCall(kind) =>
      var matched;
      ok, matched := lexer.Match(kind);
      answer := Said(matched);
    case MatchNextCall(kind) =>
      var matched;
      ok, matched := lexer.MatchNext(kind);
      answer := Said(matched);
    case MatchBothCall(first, second) =>
      var matched;
      ok, matched := lexer.MatchBoth(first, second);
      answer := Said(matched);
    case ExpectCall(kind) =>
      var met, l;
      ok, met, l := lexer.Expect(kind);
      answer := if met then Gave(l) else Raised(l);
  }

  /** The answers given so far to the calls of a run are right, and the text had the tokens they needed. */
  ghost predicate Right(answers: seq<Answer<Lexeme>>, calls: seq<Call>, source: string, written: string) {
    |answers| <= |calls| && forall i :: 0 <= i < |answers| ==> RightAt(answers, calls, i, source, written)
  }

  ghost predicate RightAt(answers: seq<Answer<Lexeme>>, calls: seq<Call>, i: nat, source: string, written: string)
    requires i < |answers| <= |calls|
  {
    && Available(source, MovedBy(source, calls[..i]), calls[i])
    && Shows(answers[i], Answered(source, MovedBy(source, calls[..i]), calls[i]), source, written)
  }

  lemma RightNext(answers: seq<Answer<Lexeme>>, answer: Answer<Lexeme>, calls: seq<Call>, source: string,
                  written: string, more: string)
    requires Right(answers, calls, source, written) && written <= more
    ensures Right(answers, calls, source, more)
    ensures
      var n := |answers|;
      && n < |calls| && Available(source, MovedBy(source, calls[..n]), calls[n])
      && Shows(answer, Answered(source, MovedBy(source, calls[..n]), calls[n]), source, more) ==>
           Right(answers + [answer], calls, source, more)
  {
    hide Shows, Answered, Available, MovedBy;
    forall i | 0 <= i < |answers| ensures RightAt(answers, calls, i, source, more) {
      assert RightAt(answers, calls, i, source, written);
      ShowsAfter(answers[i], Answered(source, MovedBy(source, calls[..i]), calls[i]), source, written, more);
    }
    forall i | 0 <= i < |answers| && |answers| < |calls|
      ensures RightAt(answers + [answer], calls, i, source, more)
    {
      assert RightAt(answers, calls, i, source, more);
    }
  }

  /**
   Any run of calls on a new lexer: every answer is right, and at the end of the run every lexeme
   handed out on the way still is, although all share one buffer. A run fails exactly at the
   first call that needs a token the text does not have; on a printed text none does.
   */
  method PerformAll(source: string, buffer: Arena, calls: seq<Call>)
    returns (ok: bool, answers: seq<Answer<Lexeme>>)
    requires buffer.Valid() && buffer.memory.Length < UNUSED
    requires buffer.occupied + |source| <= buffer.memory.Length
    modifies buffer, buffer.memory
    ensures buffer.Valid() && old(buffer.Written()) <= buffer.Written()
    ensures Right(answers, calls, source, buffer.Written())
    ensures if ok then |answers| == |calls|
            else |answers| < |calls| && !Available(source, MovedBy(source, calls[..|answers|]), calls[|answers|])
    ensures forall ts :: (forall t :: t in ts ==> Printable(t)) && source == PrintAll(ts) ==> ok
  {
    hide LexOne, LexMany, TokenAt, Shows, Answered, Moved, Available, Right, Printable, PrintAll;
    var lexer := new Lexer(source, buffer);
    answers, ok := [], true;
    NothingRight(calls, source, buffer.Written());
    while |answers| < |calls|
      invariant ok && |answers| <= |calls|
      invariant fresh(lexer) && fresh(lexer.reader) && lexer.reader.source == source && lexer.buffer == buffer
      invariant lexer.Valid() && lexer.Cursor() == MovedBy(source, calls[..|answers|])
      invariant old(buffer.Written()) <= buffer.Written()
      invariant Right(answers, calls, source, buffer.Written())
      decreases |calls| - |answers|
    {
      var n := |answers|;
      ghost var written := buffer.Written();
      forall ts | (forall t :: t in ts ==> Printable(t)) && source == PrintAll(ts)
        ensures Available(source, MovedBy(source, calls[..n]), calls[n])
      {
        PrintedAvailable(ts, MovedBy(source, calls[..n]), calls[n]);
      }
      var answer;
      ok, answer := Perform(lexer, calls[n]);
      RightNext(answers, answer, calls, source, written, buffer.Written());
      if !ok { return; }
      assert calls[..n + 1][..n] == calls[..n];
      answers := answers + [answer];
    }
  }

  lemma NothingRight(calls: seq<Call>, source: string, written: string)
    ensures Right([], calls, source, written)
  {
  }
}
