/**
 The two pieces of state a lexer works on: the cursor into a source text, and the buffer that
 holds the characters of escaped literals, which only ever grows.
 */
module TextReading {
  import opened Lexing

  /** The line the text after `s` starts on. */
  function LineAt(s: string): nat {
    if s == [] then 1 else LineAt(s[..|s| - 1]) + (if s[|s| - 1] == '\n' then 1 else 0)
  }

  /** The column the text after `s` starts at. */
  function ColumnAt(s: string): nat {
    if s == [] || s[|s| - 1] == '\n' then 1 else ColumnAt(s[..|s| - 1]) + 1
  }

  lemma {:induction false} LineCountsNewlines(s: string)
    ensures LineAt(s) == 1 + multiset(s)['\n']
  {
    if s != [] {
      LineCountsNewlines(s[..|s| - 1]);
      assert s == s[..|s| - 1] + [s[|s| - 1]];
    }
  }

  /** The column counts from the last newline, or from the start of the text. */
  lemma {:induction false} ColumnCountsFromNewline(s: string, start: nat)
    requires start <= |s| && (start == 0 || s[start - 1] == '\n')
    requires forall i :: start <= i < |s| ==> s[i] != '\n'
    ensures ColumnAt(s) == 1 + |s| - start
  {
    if start < |s| {
      ColumnCountsFromNewline(s[..|s| - 1], start);
    }
  }

  /** Where a token ends: the column is a 16-bit counter and wraps. */
  datatype Location = Location(offset: nat, line: nat, column: nat)

  const COLUMNS := 0x1_0000

  function LocationAt(s: string): Location {
    Location(|s|, LineAt(s), ColumnAt(s) % COLUMNS)
  }

  class TextReader {
    const source: string
    /** The next character to read. */
    var offset: nat
    /** Where the next slice starts. */
    var current: nat
    var line: nat
    var column: nat

    ghost predicate Valid()
      reads this
    {
      current <= offset <= |source| && Located()
    }

    ghost predicate Located()
      reads this
      requires offset <= |source|
    {
      line == LineAt(source[..offset]) && column == ColumnAt(source[..offset]) % COLUMNS
    }

    /** The text not yet read. */
    ghost function Rest(): (r: string)
      reads this
      requires Valid()
      ensures |r| == |source| - offset
    {
      source[offset..]
    }

    constructor (source: string)
      ensures this.source == source && Valid() && Rest() == source && current == 0
    {
      this.source := source;
      offset, current, line, column := 0, 0, 1, 1;
    }

    predicate AtEnd()
      reads this
    {
      offset >= |source|
    }

    function Peek(): (c: char)
      reads this
      requires Valid()
      ensures c == First(Rest())
    {
      if AtEnd() then '\0' else source[offset]
    }

    /** The character after the next one; a null character follows the text. */
    function PeekNext(): (c: char)
      reads this
      requires Valid()
      ensures c == Second(Rest())
    {
      if offset + 1 >= |source| then '\0' else source[offset + 1]
    }

    /** The last character read, except that the first of the text is never given. */
    function PeekLast(): char
      reads this
      requires Valid() && offset > 0
    {
      if offset == 1 then '\0' else source[offset - 1]
    }

    method Advance() returns (c: char)
      requires Valid()
      modifies this
      ensures Valid() && current == old(current) && c == First(old(Rest()))
      ensures offset == old(offset) + (if old(offset) < |source| then 1 else 0)
    {
      if AtEnd() { return '\0'; }
      c := source[offset];
      assert source[..offset + 1][..offset] == source[..offset];
      offset := offset + 1;
      if c == '\n' {
        line := line + 1;
        column := 1;
      } else {
        column := (column + 1) % COLUMNS;
      }
    }

    method Match(c: char) returns (matched: bool)
      requires Valid() && c != '\0'
      modifies this
      ensures Valid() && current == old(current)
      ensures matched <==> First(old(Rest())) == c
      ensures offset == old(offset) + (if matched then 1 else 0)
    {
      matched := Peek() == c;
      if matched { var _ := Advance(); }
    }

    method Sync()
      requires Valid()
      modifies this`current
      ensures Valid() && current == offset
    {
      current := offset;
    }

    /** The text read since the last slice, as a range of the source. */
    method Slice() returns (from: nat, to: nat)
      requires Valid()
      modifies this`current
      ensures Valid() && from == old(current) && to == offset == current
    {
      from, to := current, offset;
      current := offset;
    }

    method SkipInsignificant()
      requires Valid()
      modifies this
      ensures Valid() && current == offset && Rest() == SkipBlank(old(Rest()))
    {
      while IsInsignificant(Peek())
        invariant Valid() && offset >= old(offset)
        invariant SkipBlank(Rest()) == SkipBlank(old(Rest()))
        decreases |source| - offset
      {
        assert Rest()[1..] == source[offset + 1..];
        var _ := Advance();
      }
      Sync();
    }

    /** Stops at the next `c`, or at the end. */
    method SkipUntil(c: char)
      requires Valid()
      modifies this
      ensures Valid() && offset >= old(offset) && current == old(current)
      ensures forall i :: old(offset) <= i < offset ==> source[i] != c
      ensures AtEnd() || source[offset] == c
    {
      while !AtEnd() && Peek() != c
        invariant Valid() && offset >= old(offset) && current == old(current)
        invariant forall i :: old(offset) <= i < offset ==> source[i] != c
        decreases |source| - offset
      {
        var _ := Advance();
      }
    }

    /** Reads the longest run of identifier characters, as part of the current slice. */
    method GetIdentifier() returns (from: nat, to: nat)
      requires Valid()
      modifies this
      ensures Valid() && from == old(current) && to == offset == current
      ensures offset == old(offset) + NameLength(old(Rest()))
    {
      ghost var start := Rest();
      while !AtEnd() && IsIdentifier(Peek())
        invariant Valid() && offset >= old(offset) && current == old(current)
        invariant forall i :: 0 <= i < offset - old(offset) ==> IsIdentifier(start[i])
        decreases |source| - offset
      {
        var _ := Advance();
      }
      NameLengthIsAll(start, offset - old(offset));
      from, to := Slice();
    }

    /** Reads the longest run of digits. */
    method ScanDigits()
      requires Valid()
      modifies this
      ensures Valid() && current == old(current) && offset == old(offset) + Digits(old(Rest()))
    {
      ghost var start := Rest();
      while !AtEnd() && IsDigit(Peek())
        invariant Valid() && offset >= old(offset) && current == old(current)
        invariant forall i :: 0 <= i < offset - old(offset) ==> IsDigit(start[i])
        decreases |source| - offset
      {
        var _ := Advance();
      }
      DigitsAreAll(start, offset - old(offset));
    }

    /** After a backslash was read: reads the character that completes an escape, if one follows. */
    method IsEscapeSequence() returns (escape: bool)
      requires Valid() && offset > 0
      modifies this
      ensures Valid() && current == old(current)
      ensures escape <==> old(offset) > 1 && source[old(offset) - 1] == '\\' && EscapeChar(First(old(Rest()))).Some?
      ensures offset == old(offset) + (if escape then 1 else 0)
    {
      if PeekLast() != '\\' { return false; }
      escape := Match('n');
      if !escape { escape := Match('t'); }
      if !escape { escape := Match('0'); }
      if !escape { escape := Match('r'); }
      if !escape { escape := Match('a'); }
      if !escape { escape := Match('b'); }
      if !escape { escape := Match('f'); }
      if !escape { escape := Match('v'); }
      if !escape { escape := Match('\\'); }
      if !escape { escape := Match('\"'); }
      if !escape { escape := Match('\''); }
    }
  }

  /** The buffer of escaped literals. What was written never changes; writes are appended. */
  class Arena {
    const memory: array<char>
    var occupied: nat

    ghost predicate Valid()
      reads this
    {
      occupied <= memory.Length
    }

    function Written(): (s: string)
      reads this, memory
      requires Valid()
      ensures |s| == occupied
    {
      memory[..occupied]
    }

    constructor (capacity: nat)
      ensures Valid() && fresh(memory) && memory.Length == capacity && Written() == []
    {
      memory := new char[capacity];
      occupied := 0;
    }

    method Write(bytes: string)
      requires Valid() && occupied + |bytes| <= memory.Length
      modifies this, memory
      ensures Valid() && Written() == old(Written()) + bytes
    {
      forall i | 0 <= i < |bytes| {
        memory[occupied + i] := bytes[i];
      }
      occupied := occupied + |bytes|;
    }
  }
}
