/**
 The lexer: scanning one token from the reader, and a window of the last, the current and the
 next token that parsers look through.
 */
module SourceLexer {
  import opened Options
  import opened Tokens
  import opened Lexing
  import opened TextReading

  /** A lexeme is not a copy: it points into the source, into the escape buffer, or to a message. */
  datatype View = InSource(from: nat, to: nat) | InBuffer(from: nat, to: nat) | Message(text: string)

  datatype Lexeme = Lexeme(location: Location, kind: TokenType, view: View)

  predicate Inside(v: View, source: string, written: string) {
    match v
    case InSource(from, to) => from <= to <= |source|
    case InBuffer(from, to) => from <= to <= |written|
    case Message(_) => true
  }

  function Text(v: View, source: string, written: string): string
    requires Inside(v, source, written)
  {
    match v
    case InSource(from, to) => source[from..to]
    case InBuffer(from, to) => written[from..to]
    case Message(text) => text
  }

  function Size(v: View): int {
    if v.Message? then |v.text| else v.to - v.from
  }

  /** The lexeme is the token, given what the source and the buffer hold. */
  predicate Reads(l: Lexeme, t: Token, source: string, written: string) {
    && Inside(l.view, source, written)
    && l.kind == t.kind
    && Text(l.view, source, written) == t.lexeme
  }

  /** Appending to the buffer changes no lexeme. */
  lemma ReadsAfter(l: Lexeme, t: Token, source: string, written: string, more: string)
    requires Reads(l, t, source, written) && written <= more
    ensures Reads(l, t, source, more)
  {
  }

  lemma NothingHere()
    ensures LexHere("") == Lexed(Token(EOF, ""), "")
  {
  }

  lemma BlankTwice(s: string)
    ensures SkipBlank(SkipBlank(s)) == SkipBlank(s)
    ensures SkipTrivia(SkipBlank(s)) == SkipTrivia(s)
    ensures StartsComment(SkipBlank(s)) ==> SkipTrivia(s) == SkipTrivia(SkipLine(SkipBlank(s)))
    ensures !StartsComment(SkipBlank(s)) ==> SkipTrivia(s) == SkipBlank(s)
  {
  }

  lemma {:induction false} SkipLineStops(s: string, n: nat)
    requires n <= |s| && (forall i :: 0 <= i < n ==> s[i] != '\n') && (n == |s| || s[n] == '\n')
    ensures SkipLine(s) == s[n..]
  {
    if n > 0 {
      SkipLineStops(s[1..], n - 1);
    }
  }

  function Max(a: int, b: int): int { if a >= b then a else b }

  /** What stands for the last token where there is none. */
  const NO_LEXEME := Lexeme(Location(0, 0, 0), TOKEN_ERROR, Message(""))

  // ------------------------------------------------------------- unquoting

  function Prepend(done: string, q: Quoted): Quoted {
    if q.Closed? then Closed(done + q.content, q.rest) else Unclosed
  }

  lemma UnquoteEscape(done: string, s: string)
    requires StartsEscape(s)
    ensures Prepend(done, Unquote(s)) == Prepend(done + [EscapeChar(s[1]).value], Unquote(s[2..]))
  {
  }

  lemma EscapeStarts(s: string)
    requires s != []
    ensures StartsEscape(s) <==> s[0] == '\\' && EscapeChar(First(s[1..])).Some?
  {
  }

  lemma UnquotePlain(done: string, s: string)
    requires s != [] && s[0] != '"' && !StartsEscape(s)
    ensures Prepend(done, Unquote(s)) == Prepend(done + [s[0]], Unquote(s[1..]))
  {
  }

  lemma NothingPrepended(q: Quoted)
    ensures Prepend("", q) == q
  {
  }

  /** A string literal of which `done` was read, where its end comes next. */
  lemma StringAt(s: string, rest: string, done: string)
    requires s != [] && Prepend(done, Unquote(rest)) == Unquote(s[1..])
    requires rest == [] || rest[0] == '"'
    ensures LexString(s) ==
      if rest == [] then Lexed(Token(ERROR, "unclosed string found"), "")
      else Lexed(Token(STRING_LITERAL, done), rest[1..])
  {
  }

  lemma NoDigits(s: string)
    ensures Digits(s) == 0 <==> !IsDigit(First(s))
  {
  }

  lemma DigitsAfter(s: string)
    requires s != [] && IsDigit(s[0])
    ensures Digits(s) == 1 + Digits(s[1..])
  {
  }

  /** The cases of a number by positions in the source. */
  lemma NumberAt(source: string, start: nat)
    requires start < |source| && IsDigit(source[start])
    ensures
      var e := start + 1 + Digits(source[start + 1..]);
      && (First(source[e..]) != '.' || Second(source[e..]) == '.' ==>
            LexNumber(source[start..]) == Lexed(Token(INTEGER_LITERAL, source[start..e]), source[e..]))
      && (First(source[e..]) == '.' && Second(source[e..]) != '.' ==>
            LexNumber(source[start..]) == Fraction(source, start, e + 1))
  {
    hide *;
    var s, n := source[start..], Digits(source[start..]);
    DigitsAfter(s);
    Drop(source, start, 1);
    Drop(source, start, n);
    NumberCases(s);
    if First(s[n..]) == '.' && Second(s[n..]) != '.' { FractionAt(source, start, n); }
  }

  lemma FractionAt(source: string, start: nat, n: nat)
    requires start + n <= |source| && First(source[start + n..]) == '.'
    ensures
      var s := source[start..];
      var m := Digits(s[n..][1..]);
      Fraction(source, start, start + n + 1) ==
        if m == 0 then Lexed(Token(ERROR, "expected digit after '.'"), s[n..][1..])
        else Lexed(Token(DECIMAL_LITERAL, s[..n + 1 + m]), s[n..][1..][m..])
  {
    hide Digits;
    Drop(source, start, n);
    Drop(source, start + n, 1);
    var m := Digits(source[start + n + 1..]);
    Drop(source, start, n + 1 + m);
    Drop(source, start + n + 1, m);
  }

  lemma Drop(source: string, from: nat, n: nat)
    requires from + n <= |source|
    ensures source[from..][n..] == source[from + n..]
    ensures source[from..][..n] == source[from..from + n]
  {
  }

  lemma NumberCases(s: string)
    requires s != [] && IsDigit(s[0])
    ensures
      var n := Digits(s);
      var tail := s[n..];
      && (First(tail) != '.' || Second(tail) == '.' ==> LexNumber(s) == Lexed(Token(INTEGER_LITERAL, s[..n]), tail))
      && (First(tail) == '.' && Second(tail) != '.' ==>
            var m := Digits(tail[1..]);
            LexNumber(s) == if m == 0 then Lexed(Token(ERROR, "expected digit after '.'"), tail[1..])
                            else Lexed(Token(DECIMAL_LITERAL, s[..n + 1 + m]), tail[1..][m..]))
  {
    hide Digits;
  }

  function Fraction(source: string, start: nat, e: nat): Lexed
    requires start <= e <= |source|
  {
    var m := Digits(source[e..]);
    if m == 0 then Lexed(Token(ERROR, "expected digit after '.'"), source[e..])
    else Lexed(Token(DECIMAL_LITERAL, source[start..e + m]), source[e..][m..])
  }

  /** The cases of a character literal, whose content ends at `e`. */
  lemma CharAt(source: string, start: nat, e: nat)
    requires start < |source|
    requires
      var t := source[start + 1..];
      e == start + 1 + if StartsEscape(t) then 2 else if t == [] then 0 else 1
    ensures LexChar(source[start..]) ==
      if First(source[e..]) == '\''
      then Lexed(
             Token(CHAR_LITERAL, if e == start + 3 then [EscapeChar(source[e - 1]).value] else source[start + 1..e]),
             source[e..][1..])
      else Lexed(Token(ERROR, "unclosed or empty char found"), source[e..])
  {
    hide EscapeChar;
    var t := source[start + 1..];
    assert source[start..][1..] == t;
    var n := e - start - 1;
    assert t[n..] == source[e..] && t[..n] == source[start + 1..e];
    if First(t[n..]) == '\'' {
      assert t[n + 1..] == source[e..][1..];
    }
  }

  /** Marks that a literal has put nothing in the escape buffer. */
  const UNUSED: nat := 0xFFFF_FFFF

  /** The type of an operator that no other operator starts with. */
  function SingleKind(c: char): Option<TokenType> {
    if c == '%' then Some(PERCENT)
    else if c == '$' then Some(DOLLAR)
    else if c == '&' then Some(AMPERSAND)
    else if c == '|' then Some(PIPE)
    else if c == '(' then Some(LEFT_PAREN)
    else if c == ')' then Some(RIGHT_PAREN)
    else if c == '{' then Some(LEFT_BRACE)
    else if c == '}' then Some(RIGHT_BRACE)
    else if c == '#' then Some(HASH)
    else if c == '@' then Some(AT)
    else if c == '~' then Some(TILDE)
    else if c == ',' then Some(COMMA)
    else if c == ';' then Some(SEMI_COLON)
    else if c == '?' then Some(QUESTION)
    else if c == '^' then Some(CARET)
    else if c == '[' then Some(LEFT_BRACKET)
    else if c == ']' then Some(RIGHT_BRACKET)
    else None
  }

  /** The operators of one or two characters: how one may continue, and its type either way. */
  datatype Pair = Pair(second: char, long: TokenType, third: char, longer: TokenType, short: TokenType)

  function PairKind(c: char): Option<Pair> {
    if c == '+' then Some(Pair('+', PLUS_PLUS, '=', PLUS_EQUAL, PLUS))
    else if c == '-' then Some(Pair('-', MINUS_MINUS, '=', MINUS_EQUAL, MINUS))
    else if c == '=' then Some(Pair('=', EQUAL_EQUAL, '>', ARROW, EQUAL))
    else if c == '*' then Some(Pair('*', STAR_STAR, '=', STAR_EQUAL, STAR))
    else if c == '/' then Some(Pair('=', SLASH_EQUAL, '=', SLASH_EQUAL, FORWARD_SLASH))
    else if c == '<' then Some(Pair('=', LESS_EQUAL, '=', LESS_EQUAL, LESS))
    else if c == '>' then Some(Pair('=', GREATER_EQUAL, '=', GREATER_EQUAL, GREATER))
    else if c == '!' then Some(Pair('=', BANG_EQUAL, '=', BANG_EQUAL, BANG))
    else if c == ':' then Some(Pair(':', COLON_COLON, ':', COLON_COLON, COLON))
    else None
  }

  /** The switch of the scanner takes the longest operator there is. */
  lemma OperatorsByFirst(s: string)
    requires s != []
    ensures SingleKind(s[0]).Some? ==> Operator(s) == (SingleKind(s[0]).value, 1)
    ensures PairKind(s[0]).Some? ==>
      var p := PairKind(s[0]).value;
      && p.second != '\0' && p.third != '\0'
      && Operator(s) ==
           if Second(s) == p.second then (p.long, 2) else if Second(s) == p.third then (p.longer, 2) else (p.short, 1)
    ensures s[0] == '.' ==>
      Operator(s) == if Second(s) != '.' then (DOT, 1)
                     else if First(s[2..]) == '=' then (DOT_DOT_EQUAL, 3)
                     else if First(s[2..]) == '.' then (ELLIPSE, 3)
                     else (DOT_DOT, 2)
    ensures SingleKind(s[0]).None? && PairKind(s[0]).None? && s[0] != '.' <==> Operator(s).1 == 0
  {
  }

  class Lexer {
    const reader: TextReader
    /** Shared by all lexers. */
    const buffer: Arena
    var last: Option<Lexeme>
    var current: Option<Lexeme>
    var next: Option<Lexeme>
    /** Every token scanned so far, in order. */
    ghost var scanned: seq<Lexeme>

    constructor (source: string, buffer: Arena)
      requires buffer.Valid() && buffer.memory.Length < UNUSED
      requires buffer.occupied + |source| <= buffer.memory.Length
      ensures Valid() && Cursor() == -1 && scanned == []
      ensures fresh(reader) && reader.source == source && this.buffer == buffer
    {
      reader := new TextReader(source);
      this.buffer := buffer;
      last, current, next, scanned := None, None, None, [];
    }

    // --------------------------------------------------------------- window

    /** The tokens scanned are the first ones of the source, and every one of them still reads so. */
    ghost predicate Scanned()
      reads this, reader, buffer, buffer.memory
    {
      && Ready() && Fits(reader.offset)
      && var front := LexMany(reader.source, |scanned|);
      && front.Some? && front.value.1 == reader.Rest()
      && forall i :: 0 <= i < |scanned| ==> Reads(scanned[i], front.value.0[i], reader.source, buffer.Written())
    }

    ghost function Held(i: int): Option<Lexeme>
      reads this
    {
      if 0 <= i < |scanned| then Some(scanned[i]) else None
    }

    /** The position of the current token: -1 before the first. */
    ghost function Cursor(): int
      reads this
    {
      |scanned| - 1 - (if next.Some? then 1 else 0)
    }

    ghost predicate Valid(): (valid: bool)
      reads this, reader, buffer, buffer.memory
      ensures valid ==> Ready()
    {
      && Scanned()
      && Cursor() >= -1
      && last == Held(Cursor() - 1) && current == Held(Cursor())
      && (next.Some? ==> next == Held(Cursor() + 1))
    }

    /** The lexeme is the token at position `i` of the source. */
    ghost predicate Is(l: Lexeme, i: int)
      reads reader, buffer, buffer.memory
      requires Ready()
    {
      i >= 0 && Reads(l, TokenAt(reader.source, i), reader.source, buffer.Written())
    }

    /** The token a lexeme reads as. */
    function TokenOf(l: Lexeme): Token
      reads reader, buffer, buffer.memory
      requires Ready() && Inside(l.view, reader.source, buffer.Written())
    {
      Token(l.kind, Text(l.view, reader.source, buffer.Written()))
    }

    /** What was scanned stays as it was. */
    twostate predicate Grown()
      reads this, reader, buffer, buffer.memory
      requires buffer.Valid() && old(buffer.Valid())
    {
      old(scanned) <= scanned && old(buffer.Written()) <= buffer.Written()
    }

    lemma ScannedAre()
      requires Scanned()
      ensures forall i :: 0 <= i < |scanned| ==> Is(scanned[i], i)
      ensures forall n :: 0 <= n <= |scanned| ==> Lexes(reader.source, n)
    {
      hide Reads, LexOne;
      forall i | 0 <= i < |scanned| ensures Is(scanned[i], i) {
        LexManyPrefix(reader.source, i + 1, |scanned|);
      }
      forall n | 0 <= n <= |scanned| ensures Lexes(reader.source, n) {
        LexManyPrefix(reader.source, n, |scanned|);
      }
    }

    /** Scans the next token and records it. */
    method ScanNext() returns (ok: bool, l: Lexeme)
      requires Scanned()
      modifies this`scanned, reader, buffer, buffer.memory
      ensures ok ==> Scanned() && scanned == old(scanned) + [l]
      ensures !ok ==> scanned == old(scanned)
      ensures buffer.Valid() && old(buffer.Written()) <= buffer.Written()
      ensures ok <==> Lexes(reader.source, |old(scanned)| + 1)
    {
      hide LineAt, ColumnAt, LexOne, Reads;
      ghost var before, written := scanned, buffer.Written();
      ghost var front := LexMany(reader.source, |scanned|);
      ok, l := AdvanceOne();
      if ok {
        scanned := scanned + [l];
        ghost var front' := LexMany(reader.source, |scanned|);
        forall i | 0 <= i < |scanned|
          ensures Reads(scanned[i], front'.value.0[i], reader.source, buffer.Written())
        {
          if i < |before| {
            ReadsAfter(scanned[i], front.value.0[i], reader.source, written, buffer.Written());
          }
        }
      }
    }

    /** Moves the window on by one token. */
    method Advance() returns (ok: bool, l: Lexeme)
      requires Valid()
      modifies this, reader, buffer, buffer.memory
      ensures buffer.Valid() && Grown()
      ensures ok ==> Valid() && Cursor() == old(Cursor()) + 1 && Held(Cursor()) == Some(l) && Is(l, Cursor())
      ensures ok <==> Lexes(reader.source, old(Cursor()) + 2)
    {
      hide LexOne, Reads, LexMany, TokenAt;
      last := current;
      ok := true;
      if next.Some? {
        current := next;
        next := None;
        l := current.value;
      } else {
        ok, l := ScanNext();
        if !ok { return; }
        current := Some(l);
      }
      ScannedAre();
    }

    /** The current token; the first one if there is none yet. */
    method Peek() returns (ok: bool, l: Lexeme)
      requires Valid()
      modifies this, reader, buffer, buffer.memory
      ensures buffer.Valid() && Grown()
      ensures ok ==> Valid() && Cursor() == Max(old(Cursor()), 0) && Held(Cursor()) == Some(l) && Is(l, Cursor())
      ensures ok && old(Cursor()) >= 0 ==> unchanged(this)
      ensures ok <==> Lexes(reader.source, Max(old(Cursor()), 0) + 1)
    {
      hide LexOne, Reads, LexMany, TokenAt;
      if current.None? {
        ok, l := Advance();
      } else {
        ScannedAre();
        ok, l := true, current.value;
      }
    }

    /** The token after the current one, which stays the current one. */
    method PeekNext() returns (ok: bool, l: Lexeme)
      requires Valid()
      modifies this, reader, buffer, buffer.memory
      ensures buffer.Valid() && Grown()
      ensures ok ==> Valid() && Cursor() == old(Cursor()) && Held(Cursor() + 1) == Some(l) && Is(l, Cursor() + 1)
      ensures ok <==> Lexes(reader.source, old(Cursor()) + 2)
    {
      hide LexOne, Reads, LexMany, TokenAt;
      if next.Some? {
        ScannedAre();
        return true, next.value;
      }
      ok, l := ScanNext();
      if !ok { return; }
      next := Some(l);
      ScannedAre();
    }

    /** The token before the current one, or a token of no text. */
    method PeekLast() returns (l: Lexeme)
      requires Valid()
      ensures if Cursor() >= 1 then Is(l, Cursor() - 1) else l == NO_LEXEME
    {
      hide LexOne, Reads, LexMany, TokenAt;
      ScannedAre();
      l := if last.Some? then last.value else NO_LEXEME;
    }

    /** Moves on if the current token is of the given type. */
    method Match(kind: TokenType) returns (ok: bool, matched: bool)
      requires Valid()
      modifies this, reader, buffer, buffer.memory
      ensures buffer.Valid() && Grown()
      ensures ok ==> Valid() && (matched <==> TokenAt(reader.source, Max(old(Cursor()), 0)).kind == kind)
      ensures ok ==> Cursor() == Max(old(Cursor()), 0) + (if matched then 1 else 0)
      ensures
        var c := Max(old(Cursor()), 0);
        ok <==> Lexes(reader.source, c + 1) && (TokenAt(reader.source, c).kind == kind ==> Lexes(reader.source, c + 2))
    {
      hide LexOne, LexMany, TokenAt, Lexes, Valid, Cursor, Held;
      var l;
      ok, l := Peek();
      if !ok { return false, false; }
      matched := l.kind == kind;
      if matched { ok, l := Advance(); }
    }

    /** Moves on, to the next token, if that is of the given type. */
    method MatchNext(kind: TokenType) returns (ok: bool, matched: bool)
      requires Valid()
      modifies this, reader, buffer, buffer.memory
      ensures buffer.Valid() && Grown()
      ensures ok ==> Valid() && (matched <==> TokenAt(reader.source, old(Cursor()) + 1).kind == kind)
      ensures ok ==> Cursor() == old(Cursor()) + (if matched then 1 else 0)
      ensures ok <==> Lexes(reader.source, old(Cursor()) + 2)
    {
      hide LexOne, LexMany, TokenAt, Lexes, Valid, Cursor, Held;
      var l;
      ok, l := PeekNext();
      if !ok { return false, false; }
      matched := l.kind == kind;
      if matched { ok, l := Advance(); }
    }

    /** Moves past the current and the next token if they are of the given types. */
    method MatchBoth(a: TokenType, b: TokenType) returns (ok: bool, matched: bool)
      requires Valid()
      modifies this, reader, buffer, buffer.memory
      ensures buffer.Valid() && Grown()
      ensures
        var c := Max(old(Cursor()), 0);
        ok ==>
          && Valid() && Cursor() == c + (if matched then 2 else 0)
          && (matched <==> TokenAt(reader.source, c).kind == a && TokenAt(reader.source, c + 1).kind == b)
      ensures
        var s, c := reader.source, Max(old(Cursor()), 0);
        ok <==> Lexes(s, c + 1) && (TokenAt(s, c).kind == a ==>
                  Lexes(s, c + 2) && (TokenAt(s, c + 1).kind == b ==> Lexes(s, c + 3)))
    {
      hide LexOne, LexMany, TokenAt, Lexes, Valid, Cursor, Held;
      var l;
      ok, l := Peek();
      if !ok { return false, false; }
      matched := l.kind == a;
      if !matched { return; }
      ok, l := PeekNext();
      if !ok { return false, false; }
      matched := l.kind == b;
      if matched {
        ok, l := Advance();
        if ok { ok, l := Advance(); }
      }
    }

    /** Moves past the current token, which must be of the given type, and returns it. */
    method Expect(kind: TokenType) returns (ok: bool, met: bool, l: Lexeme)
      requires Valid()
      modifies this, reader, buffer, buffer.memory
      ensures buffer.Valid() && Grown()
      ensures
        var c := Max(old(Cursor()), 0);
        ok ==>
          && Valid() && Is(l, c) && Cursor() == c + (if met then 1 else 0)
          && (met <==> TokenAt(reader.source, c).kind == kind)
      ensures
        var c := Max(old(Cursor()), 0);
        ok <==> Lexes(reader.source, c + 1) && (TokenAt(reader.source, c).kind == kind ==> Lexes(reader.source, c + 2))
    {
      hide LexOne, LexMany, TokenAt, Lexes, Valid, Cursor, Held;
      ok, l := Peek();
      if !ok { return false, false, l; }
      met := l.kind == kind;
      if !met { return; }
      var following;
      ok, following := Advance();
      if ok { l := PeekLast(); }
    }

    // ------------------------------------------------------------- scanning

    ghost predicate Ready()
      reads reader, buffer, buffer.memory
    {
      reader.Valid() && buffer.Valid() && buffer.memory.Length < UNUSED
    }

    /** The buffer has room for the text from `offset` on. */
    ghost predicate Fits(offset: nat)
      reads reader, buffer
    {
      buffer.occupied + |reader.source| - offset <= buffer.memory.Length
    }

    /** The lexeme is the token of `t`, and the reader is where `t` says. */
    ghost predicate Built(l: Lexeme, t: Lexed)
      reads reader, buffer, buffer.memory
      requires Ready()
    {
      && t.Lexed?
      && reader.Rest() == t.rest
      && l.location == LocationAt(reader.source[..reader.offset])
      && Reads(l, t.token, reader.source, buffer.Written())
    }

    /** The text from the start of the token on. */
    ghost function Pending(): string
      reads reader
      requires reader.Valid()
    {
      reader.source[reader.current..]
    }

    /** A token of the given text, or of the text read since the token started if none is given. */
    method BuildToken(kind: TokenType, text: View) returns (l: Lexeme)
      requires Ready()
      modifies reader`current
      ensures Ready() && l.kind == kind && l.location == LocationAt(reader.source[..reader.offset])
      ensures l.view == if Size(text) == 0 then InSource(old(reader.current), reader.offset) else text
    {
      hide LineAt, ColumnAt;
      var view := text;
      if Size(text) == 0 {
        var from, to := reader.Slice();
        view := InSource(from, to);
      }
      l := Lexeme(Location(reader.offset, reader.line, reader.column), kind, view);
    }

    /** A token of the text read since it started. */
    method BuildPlain(kind: TokenType) returns (l: Lexeme)
      requires Ready()
      modifies reader`current
      ensures Ready()
      ensures Built(l, Lexed(Token(kind, reader.source[old(reader.current)..reader.offset]), old(reader.Rest())))
    {
      hide LineAt, ColumnAt;
      l := BuildToken(kind, Message(""));
    }

    /** A token of other text than what was read since it started. */
    method BuildText(kind: TokenType, text: View) returns (l: Lexeme)
      requires Ready() && Inside(text, reader.source, buffer.Written())
      modifies reader`current
      ensures Ready()
      ensures Built(l, Lexed(Token(kind, Text(text, reader.source, buffer.Written())), old(reader.Rest())))
    {
      hide LineAt, ColumnAt;
      l := BuildToken(kind, Message(""));
      l := l.(view := text);
    }

    method BuildError(message: string) returns (l: Lexeme)
      requires Ready() && message != ""
      modifies reader`current
      ensures Ready() && Built(l, Lexed(Token(ERROR, message), old(reader.Rest())))
    {
      hide LineAt, ColumnAt;
      l := BuildToken(ERROR, Message(message));
    }

    ghost function Operated(s: string, o: (TokenType, nat)): Lexed
      requires o.1 <= |s|
    {
      Lexed(Token(o.0, s[..o.1]), s[o.1..])
    }

    method BuildPair(p: Pair) returns (l: Lexeme)
      requires Ready() && reader.offset == reader.current + 1 && p.second != '\0' && p.third != '\0'
      modifies reader
      ensures Ready() && reader.offset >= old(reader.offset)
      ensures
        var s := old(Pending());
        Built(l, Operated(s, if Second(s) == p.second then (p.long, 2)
                             else if Second(s) == p.third then (p.longer, 2) else (p.short, 1)))
    {
      hide LineAt, ColumnAt, LocationAt, Reads;
      ghost var s := Pending();
      var kind := p.short;
      var two := reader.Match(p.second);
      if two {
        kind := p.long;
      } else {
        two := reader.Match(p.third);
        if two { kind := p.longer; }
      }
      l := BuildPlain(kind);
      assert reader.source[old(reader.current)..reader.offset] == s[..if two then 2 else 1];
    }

    method BuildDots() returns (l: Lexeme)
      requires Ready() && reader.offset == reader.current + 1
      modifies reader
      ensures Ready() && reader.offset >= old(reader.offset)
      ensures
        var s := old(Pending());
        Built(l, Operated(s, if Second(s) != '.' then (DOT, 1)
                             else if First(s[2..]) == '=' then (DOT_DOT_EQUAL, 3)
                             else if First(s[2..]) == '.' then (ELLIPSE, 3)
                             else (DOT_DOT, 2)))
    {
      hide LineAt, ColumnAt, LocationAt, Reads;
      ghost var s := Pending();
      var kind := DOT;
      var dots := reader.Match('.');
      if dots {
        assert reader.Rest() == s[2..];
        kind := DOT_DOT;
        var third := reader.Match('=');
        if third {
          kind := DOT_DOT_EQUAL;
        } else {
          third := reader.Match('.');
          if third { kind := ELLIPSE; }
        }
      }
      l := BuildPlain(kind);
      assert reader.source[old(reader.current)..reader.offset] == s[..reader.offset - old(reader.current)];
    }

    /** The digits after a point, if there are any. */
    method BuildFraction() returns (l: Lexeme)
      requires Ready() && reader.current < reader.offset
      modifies reader
      ensures Ready() && reader.offset >= old(reader.offset)
      ensures Built(l, Fraction(reader.source, old(reader.current), old(reader.offset)))
    {
      hide LineAt, ColumnAt, LocationAt, Reads, Digits;
      NoDigits(reader.Rest());
      if !IsDigit(reader.Peek()) {
        l := BuildError("expected digit after '.'");
        return;
      }
      reader.ScanDigits();
      l := BuildPlain(DECIMAL_LITERAL);
    }

    /** A fraction if a point follows that does not start a range, and otherwise an integer. */
    method AfterDigits() returns (l: Lexeme)
      requires Ready() && reader.current < reader.offset
      modifies reader
      ensures Ready() && reader.offset >= old(reader.offset)
      ensures
        var start, e, tail := old(reader.current), old(reader.offset), old(reader.Rest());
        Built(l, if First(tail) == '.' && Second(tail) != '.' then Fraction(reader.source, start, e + 1)
                 else Lexed(Token(INTEGER_LITERAL, reader.source[start..e]), tail))
    {
      hide LineAt, ColumnAt, LocationAt, Reads, Fraction;
      if reader.Peek() == '.' && reader.PeekNext() != '.' {
        var _ := reader.Advance();
        l := BuildFraction();
      } else {
        l := BuildPlain(INTEGER_LITERAL);
      }
    }

    /** Digits, and a fraction if there is one. */
    method BuildDigit() returns (l: Lexeme)
      requires Ready() && reader.offset == reader.current + 1 && IsDigit(reader.source[reader.current])
      modifies reader
      ensures Ready() && reader.offset >= old(reader.offset) && Built(l, LexNumber(old(Pending())))
    {
      hide LineAt, ColumnAt, LocationAt, Reads, Digits, LexNumber, Fraction, First, Second;
      NumberAt(reader.source, reader.current);
      reader.ScanDigits();
      l := AfterDigits();
    }

    /** A name; its type is looked up among the keywords. */
    method BuildIdentifier() returns (l: Lexeme)
      requires Ready() && reader.offset == reader.current + 1 && IsIdentifier(reader.source[reader.current])
      modifies reader
      ensures Ready() && reader.offset >= old(reader.offset) && Built(l, LexName(old(Pending())))
    {
      hide LineAt, ColumnAt;
      hide KeywordKind;
      ghost var s, start := Pending(), reader.current;
      assert s[1..] == reader.Rest();
      var from, to := reader.GetIdentifier();
      assert reader.offset == start + NameLength(s);
      assert reader.source[from..to] == s[..NameLength(s)];
      l := BuildText(KeywordKind(reader.source[from..to]), InSource(from, to));
    }

    /**
     Where the characters `done` of a string literal that was opened at `quote` are: in the source
     as long as no escape was met, after that in the buffer, with the quote before them.
     */
    ghost predicate Collected(bufferStart: nat, quote: nat, before: string, done: string)
      reads reader, buffer, buffer.memory
      requires Ready() && quote < |reader.source|
    {
      var prefix := [reader.source[quote]] + done;
      if bufferStart == UNUSED then
        && reader.current == quote < reader.offset && reader.source[quote..reader.offset] == prefix
        && buffer.Written() == before && Fits(quote)
      else
        bufferStart == |before| && buffer.Written() == before + prefix && Fits(reader.offset)
    }

    lemma CollectedIs(bufferStart: nat, quote: nat, before: string, done: string)
      requires Ready() && quote < |reader.source| && Collected(bufferStart, quote, before, done)
      ensures before <= buffer.Written() && Fits(reader.offset)
      ensures if bufferStart == UNUSED then
          reader.current == quote < reader.offset && reader.source[quote + 1..reader.offset] == done
        else
          bufferStart < buffer.occupied && buffer.Written()[bufferStart + 1..buffer.occupied] == done
    {
      hide LineAt, ColumnAt;
      if bufferStart == UNUSED {
        assert reader.source[quote..reader.offset][1..] == reader.source[quote + 1..reader.offset];
      }
    }

    /** Copies the character of an escape just read, and with the first escape all that came before. */
    method CopyEscape(start: nat, ghost quote: nat, ghost before: string, ghost done: string) returns (bufferStart: nat)
      requires Ready() && quote + 3 <= reader.offset && EscapeChar(reader.source[reader.offset - 1]).Some?
      requires start == UNUSED ==>
        && reader.current == quote && buffer.Written() == before && Fits(quote)
        && reader.source[quote..reader.offset - 2] == [reader.source[quote]] + done
      requires start != UNUSED ==>
        && start == |before| && buffer.Written() == before + ([reader.source[quote]] + done)
        && Fits(reader.offset - 2)
      modifies reader`current, buffer, buffer.memory
      ensures Ready() && bufferStart != UNUSED
      ensures Collected(bufferStart, quote, before, done + [EscapeChar(reader.source[reader.offset - 1]).value])
    {
      hide LineAt, ColumnAt;
      hide EscapeChar;
      bufferStart := start;
      if bufferStart == UNUSED {
        var from, to := reader.Slice();
        bufferStart := buffer.occupied;
        buffer.Write(reader.source[from..to - 2]);
      }
      buffer.Write([EscapeChar(reader.PeekLast()).value]);
    }

    /** Copies a character just read, once the buffer is in use. */
    method CopyPlain(c: char, start: nat, ghost quote: nat, ghost before: string, ghost done: string)
      requires Ready() && quote + 1 < reader.offset && c == reader.source[reader.offset - 1]
      requires start == UNUSED ==>
        && reader.current == quote && buffer.Written() == before && Fits(quote)
        && reader.source[quote..reader.offset - 1] == [reader.source[quote]] + done
      requires start != UNUSED ==>
        && start == |before| && buffer.Written() == before + ([reader.source[quote]] + done)
        && Fits(reader.offset - 1)
      modifies buffer, buffer.memory
      ensures Ready() && Collected(start, quote, before, done + [c])
    {
      hide LineAt, ColumnAt;
      assert [reader.source[quote]] + (done + [c]) == [reader.source[quote]] + done + [c];
      if start != UNUSED {
        buffer.Write([c]);
      } else {
        assert reader.source[quote..reader.offset] == reader.source[quote..reader.offset - 1] + [c];
      }
    }

    /**
     Reads up to the closing quote. Only from the first escape on are characters copied to the
     buffer; the opening quote is copied with them.
     */
    method ScanString() returns (bufferStart: nat, ghost done: string)
      requires Ready() && reader.offset == reader.current + 1 && Fits(reader.current)
      modifies reader, buffer, buffer.memory
      ensures Ready() && Collected(bufferStart, old(reader.current), old(buffer.Written()), done)
      ensures Prepend(done, Unquote(reader.Rest())) == Unquote(old(reader.Rest()))
      ensures reader.AtEnd() || reader.Peek() == '"'
    {
      hide LineAt, ColumnAt, EscapeChar, Unquote, Prepend;
      ghost var quote, before, quoted := reader.current, buffer.Written(), reader.Rest();
      done := "";
      bufferStart := UNUSED;
      NothingPrepended(Unquote(quoted));
      assert reader.source[quote..reader.offset] == [reader.source[quote]] + done;
      while !reader.AtEnd() && reader.Peek() != '"'
        invariant Ready() && reader.offset > quote
        invariant Prepend(done, Unquote(reader.Rest())) == Unquote(quoted)
        invariant Collected(bufferStart, quote, before, done)
        decreases |reader.source| - reader.offset
      {
        bufferStart, done := CollectOne(bufferStart, quote, before, done);
      }
    }

    /** Reads one character of a string literal, or one escape. */
    method CollectOne(start: nat, ghost quote: nat, ghost before: string, ghost done: string)
      returns (bufferStart: nat, ghost more: string)
      requires Ready() && quote < reader.offset && !reader.AtEnd() && reader.Peek() != '"'
      requires Collected(start, quote, before, done)
      modifies reader, buffer, buffer.memory
      ensures Ready() && reader.offset > old(reader.offset) && Collected(bufferStart, quote, before, more)
      ensures Prepend(more, Unquote(reader.Rest())) == Prepend(done, Unquote(old(reader.Rest())))
    {
      hide LineAt, ColumnAt, EscapeChar, Unquote, Prepend;
      ghost var s := reader.Rest();
      EscapeStarts(s);
      var c := reader.Advance();
      assert reader.Rest() == s[1..];
      var escape := reader.IsEscapeSequence();
      if escape {
        UnquoteEscape(done, s);
        assert reader.Rest() == s[2..];
        bufferStart := CopyEscape(start, quote, before, done);
        more := done + [EscapeChar(s[1]).value];
      } else {
        UnquotePlain(done, s);
        CopyPlain(c, start, quote, before, done);
        bufferStart, more := start, done + [c];
      }
    }

    /** A string literal, after its opening quote. The quotes are cut off the characters read. */
    method BuildString() returns (l: Lexeme)
      requires Ready() && reader.offset == reader.current + 1 && Fits(reader.current)
      modifies reader, buffer, buffer.memory
      ensures Ready() && Fits(reader.offset) && old(buffer.Written()) <= buffer.Written()
      ensures Built(l, LexString(old(Pending())))
    {
      hide LineAt, ColumnAt, LocationAt, Reads, Unquote, Prepend, LexString, Collected, First;
      ghost var s, quote, before := Pending(), reader.current, buffer.Written();
      Drop(reader.source, reader.current, 1);
      var bufferStart, done := ScanString();
      StringAt(s, reader.Rest(), done);
      CollectedIs(bufferStart, quote, before, done);
      ghost var tail := reader.Rest();
      var closed := reader.Match('"');
      if !closed {
        l := BuildError("unclosed string found");
        return;
      }
      var content;
      if bufferStart != UNUSED {
        content := InBuffer(bufferStart + 1, buffer.occupied);
      } else {
        var from, to := reader.Slice();
        content := InSource(from + 1, to - 1);
      }
      assert reader.Rest() == tail[1..];
      l := BuildText(STRING_LITERAL, content);
    }

    /** The content of a character literal: one character, or an escape, which goes to the buffer. */
    method ScanChar() returns (content: View)
      requires Ready() && reader.offset == reader.current + 1 && Fits(reader.current)
      modifies reader, buffer, buffer.memory
      ensures Ready() && Fits(reader.offset) && old(buffer.Written()) <= buffer.Written()
      ensures Inside(content, reader.source, buffer.Written())
      ensures
        var t := old(reader.Rest());
        && reader.offset == old(reader.offset) + (if StartsEscape(t) then 2 else if t == [] then 0 else 1)
        && Text(content, reader.source, buffer.Written()) ==
             if StartsEscape(t) then [EscapeChar(reader.source[reader.offset - 1]).value]
             else reader.source[old(reader.offset)..reader.offset]
    {
      hide LineAt, ColumnAt, EscapeChar;
      ghost var t := reader.Rest();
      if t != [] { EscapeStarts(t); }
      var _ := reader.Advance();
      assert t != [] ==> reader.Rest() == t[1..];
      var escape := reader.IsEscapeSequence();
      if escape {
        buffer.Write([EscapeChar(reader.PeekLast()).value]);
        content := InBuffer(buffer.occupied - 1, buffer.occupied);
      } else {
        var from, to := reader.Slice();
        content := InSource(from + 1, to);
      }
    }

    /** A character literal, after its opening quote. */
    method BuildChar() returns (l: Lexeme)
      requires Ready() && reader.offset == reader.current + 1 && Fits(reader.current)
      modifies reader, buffer, buffer.memory
      ensures Ready() && Fits(reader.offset) && old(buffer.Written()) <= buffer.Written()
      ensures Built(l, LexChar(old(Pending())))
    {
      hide LineAt, ColumnAt, LocationAt, Reads, EscapeChar, LexChar, StartsEscape;
      ghost var start := reader.current;
      var content := ScanChar();
      CharAt(reader.source, start, reader.offset);
      var closed := reader.Match('\'');
      if closed {
        l := BuildText(CHAR_LITERAL, content);
      } else {
        l := BuildError("unclosed or empty char found");
      }
    }

    /** Skips the comment that starts here, and the blanks after it. */
    method SkipComment()
      requires Ready() && StartsComment(reader.Rest()) && SkipBlank(reader.Rest()) == reader.Rest()
      modifies reader
      ensures Ready() && reader.current == reader.offset > old(reader.offset)
      ensures SkipTrivia(reader.Rest()) == SkipTrivia(old(reader.Rest()))
      ensures SkipBlank(reader.Rest()) == reader.Rest()
    {
      hide LineAt, ColumnAt, SkipBlank, SkipTrivia;
      ghost var s, at := reader.Rest(), reader.offset;
      BlankTwice(s);
      reader.SkipUntil('\n');
      Drop(reader.source, at, reader.offset - at);
      SkipLineStops(s, reader.offset - at);
      BlankTwice(reader.Rest());
      reader.SkipInsignificant();
    }

    /** Skips blanks and line comments. */
    method SkipComments()
      requires Ready()
      modifies reader
      ensures Ready() && reader.current == reader.offset >= old(reader.offset)
      ensures reader.Rest() == SkipTrivia(old(reader.Rest()))
    {
      hide LineAt, ColumnAt, SkipBlank;
      ghost var start := reader.Rest();
      BlankTwice(start);
      reader.SkipInsignificant();
      while reader.Peek() == '/' && reader.PeekNext() == '/'
        invariant Ready() && reader.current == reader.offset >= old(reader.offset)
        invariant SkipTrivia(reader.Rest()) == SkipTrivia(start)
        invariant SkipBlank(reader.Rest()) == reader.Rest()
        decreases |reader.source| - reader.offset
      {
        SkipComment();
      }
    }

    /** Scans the rest of a token whose first character was just read. */
    method ScanToken(c: char) returns (ok: bool, l: Lexeme)
      requires Ready() && reader.current < |reader.source| && reader.offset == reader.current + 1
      requires c == reader.source[reader.current] && Fits(reader.current)
      modifies reader, buffer, buffer.memory
      ensures Ready() && Fits(reader.offset) && old(buffer.Written()) <= buffer.Written()
      ensures ok <==> LexHere(old(Pending())).Lexed?
      ensures ok ==> Built(l, LexHere(old(Pending())))
      ensures !ok ==> reader.offset == old(reader.offset)
    {
      hide LineAt, ColumnAt, Operator, LexName, LexNumber, LexString, LexChar;
      ghost var s := Pending();
      OperatorsByFirst(s);
      Drop(reader.source, reader.current, 1);
      ok := true;
      if SingleKind(c).Some? {
        l := BuildPlain(SingleKind(c).value);
      } else if PairKind(c).Some? {
        l := BuildPair(PairKind(c).value);
      } else if c == '.' {
        l := BuildDots();
      } else if c == '\0' {
        l := BuildPlain(EOF);
      } else if c == '"' {
        l := BuildString();
      } else if c == '\'' {
        l := BuildChar();
      } else if IsDigit(c) {
        l := BuildDigit();
      } else if IsIdentifier(c) {
        l := BuildIdentifier();
      } else {
        ok := false;
        l := BuildToken(ERROR, Message(""));
      }
    }

    /** Scans one token: the first of the text left, whatever trivia comes before it. */
    method AdvanceOne() returns (ok: bool, l: Lexeme)
      requires Ready() && Fits(reader.offset)
      modifies reader, buffer, buffer.memory
      ensures Ready() && Fits(reader.offset) && old(buffer.Written()) <= buffer.Written()
      ensures ok <==> LexOne(old(reader.Rest())).Lexed?
      ensures ok ==> Built(l, LexOne(old(reader.Rest())))
    {
      hide LineAt, ColumnAt, LexHere;
      SkipComments();
      if reader.AtEnd() {
        assert LexHere([]) == Lexed(Token(EOF, ""), "") by { NothingHere(); }
        var _ := reader.Advance();
        l := BuildPlain(EOF);
        ok := true;
      } else {
        var c := reader.Advance();
        ok, l := ScanToken(c);
      }
    }
  }
}
