# Verified models of the ParsC front end and its containers

This project models, in Dafny, the parts of the ParsC compiler whose correctness rests on
invariants rather than on straight-line code, and proves what those parts are for:

- **The hash table** behind every symbol table (`Powers`, `Sizing`, `RobinHood`, `Entries`,
  `Table`, `TableRuns`). The class `Table` is the open-addressing table itself: a dense vector of
  entries and an array of buckets that pack a probe distance and a fingerprint. `RobinHood` holds
  the index invariant and how each elementary bucket move keeps it, `Entries` holds the reference
  operations on a list of entries, and `TableRuns` shows what any run of operations, by key, by
  iterator or with whole vectors, does to the mathematical map.
- **The expression parser** (`Tokens`, `Expressions`, `Parser`, `ParserSteps`, `ParserInverse`,
  `ParserSound`, `ParserTheorems`, `Precedence`). `Expressions` gives the grammar as functions and
  `Parser` the recursive-descent parser, which drives the lexer's window. Parsing and flattening a
  tree to tokens are proved to be inverse to each other; `Precedence` says what the parser makes of
  the operators, with their ladder written out.
- **The lexer** (`Lexing`, `LexRoundTrip`, `LexedTokens`, `LexRules`, `TokenStream`, `TextReader`,
  `Lexer`, `LexerRuns`, `SourceRoundTrip`, `SourceForms`). The classes `TextReader`, `Arena` and
  `Lexer` keep the cursor, the shared escape buffer and the window of three tokens. Lexing undoes
  printing, printing undoes lexing of any source without errors, and any interleaving of calls on the
  window behaves as a cursor over the list of tokens. `LexRules` says what each kind of text lexes
  as, with the characters and words of the language written out. `SourceRoundTrip` composes lexer and
  parser on source texts, and `SourceForms` writes out the words of every construct.
- **The module loader** (`ModuleLoader`): a depth-first load over an import graph that may have
  cycles.
- **Enum utilities** (`EnumFlags`, `EnumIndex`, `EnumFuse`): printing and reading flag sets, the
  sorted index with its inverse, and packing several enumerators in one word.
- **Hashing arithmetic and the segmented vector** (`Wyhash`, `SegmentedVector`, `Modular`).

Where the code works on state, the model is a class with methods whose postconditions give the whole
new state; the lemmas beside it say what that state means.

## Where the code does less than it promises

1. `calc_shifts_for_size` ends at a shift of 0 for every size above the load limit of 2^32 buckets,
   and the bucket count for that shift is `1 << 64`, which is undefined. `Sizing.CalcShiftsForSize`
   proves that this happens for exactly those sizes. The constructor, `HashTable.Table.Rehash`,
   `HashTable.Table.Reserve` and `HashTable.Table.Replace` reach it for exactly those calls, after the
   shift of 0 has been stored and the buckets have been freed.
2. A list may end in a comma, which no node records. Flattening a parsed tree gives the tokens
   consumed if and only if no comma trails (`ParserTheorems.ParseConsumes`);
   `ParserTheorems.TrailingCommaLost` gives the failing inputs: every call with arguments.
3. `enum_fuse` is documented as bijective, and a static assertion guards it, but the assertion adds
   up smaller widths than the shifts use. Fusing is injective if and only if the shifts used add up
   to at most 64 (`EnumFuse.FuseInjectiveIff`); `EnumFuse.AssertionTooWeak` gives 32 enums of five
   enumerators that pass the assertion and collide.
4. A flag value of several flags printed with another separator than the bar is not read back: the
   separator is a parameter of printing but not of reading (`EnumFlags.OtherSeparatorIff`);
   `EnumFlags.OtherSeparatorFails` gives the two flags "A" and "B" and the value 3.
5. Precedence is followed as coded: `and` binds weaker than `or`, a range binds tighter than `**`,
   and a call or member access ends a chain of postfixes.

## Model

| member | source | states |
|---|---|---|
| Sizing.CalcShiftsForSize | deps/unordered_dense/include/ankerl/unordered_dense.h:955-961 | the shift returned is that of the smallest bucket count that admits the size, exactly for sizes a 2^32-bucket table can hold; for all larger sizes the result is 0, where the bucket count is undefined |
| Sizing.LoadLimitIsFourFifths | deps/unordered_dense/include/ankerl/unordered_dense.h:838-838 | the load limit is four fifths of the bucket count, truncated, exactly below 2^24 buckets; above, the rounding of 0.8F adds what the formula says |
| Sizing.SmallTables | deps/unordered_dense/include/ankerl/unordered_dense.h:837-837 | the first bucket counts: 4 for up to 3 entries, 8 for up to 6, 16 for up to 12 |
| Sizing.TightIsSmallest | deps/unordered_dense/include/ankerl/unordered_dense.h:955-961 | a shift chosen so is the smallest bucket count that admits the size: another count admits it if and only if it is no smaller, and no other shift is chosen |
| Sizing.OneDoublingSuffices | deps/unordered_dense/include/ankerl/unordered_dense.h:1038-1050 | after an insertion overflowed, doubling the bucket count once always makes room for it |
| Sizing.CapacityBelowBuckets | deps/unordered_dense/include/ankerl/unordered_dense.h:996-1014 | below the largest bucket count the capacity is smaller than the bucket count, so some bucket stays empty |
| Sizing.NumBucketsBounds | deps/unordered_dense/include/ankerl/unordered_dense.h:951-953 | the bucket count is a power of two between 4 and 2^32, and is 2^32 only at a shift of 32 |
| Sizing.HomeInRange | deps/unordered_dense/include/ankerl/unordered_dense.h:917-919 | the home bucket of every 64-bit hash lies in the bucket array |
| HashTable.HashSplits | deps/unordered_dense/include/ankerl/unordered_dense.h:913-919 | the home bucket is the leading bits of the hash, and a probe starts at distance one with the last byte of the hash |
| RobinHood.Chain | deps/unordered_dense/include/ankerl/unordered_dense.h:930-939 | from the home of a stored entry to its bucket, every bucket is at least as far from its home as a probe for that entry would be there |
| RobinHood.ProbeHolds | deps/unordered_dense/include/ankerl/unordered_dense.h:1158-1195 | as long as a probe has not reached an entry's own bucket it is not ahead of the bucket it looks at, so no search stops before a stored key |
| RobinHood.SeekEnds | deps/unordered_dense/include/ankerl/unordered_dense.h:1185-1194 | a probe that is ahead of its bucket proves that none of the entries sought is stored |
| RobinHood.SomeEmpty | deps/unordered_dense/include/ankerl/unordered_dense.h:942-949 | with fewer entries than buckets there is an empty bucket, which bounds the shift loops |
| RobinHood.ProbeShort | deps/unordered_dense/include/ankerl/unordered_dense.h:930-939 | a probe that has kept up with the buckets before it has made less than a full turn |
| RobinHood.PlaceSwap | deps/unordered_dense/include/ankerl/unordered_dense.h:942-949 | exchanging the carried bucket with a full one keeps the invariant, with the displaced bucket carried one place on at one more distance |
| RobinHood.PlaceLast | deps/unordered_dense/include/ankerl/unordered_dense.h:942-949 | putting the carried bucket into an empty place indexes its entry and restores the full invariant |
| RobinHood.ShiftBack | deps/unordered_dense/include/ankerl/unordered_dense.h:1058-1062 | moving the next bucket back into the hole keeps every other bucket placed and ordered, and lowers the sum of distances |
| RobinHood.Settle | deps/unordered_dense/include/ankerl/unordered_dense.h:1058-1063 | a hole before a bucket that is empty or at home is a complete index again: the shift may stop there |
| RobinHood.Repoint | deps/unordered_dense/include/ankerl/unordered_dense.h:1066-1081 | pointing the bucket of the last entry at the hole gives a correct index for the entries with the last one moved there |
| RobinHood.WordsFit | deps/unordered_dense/include/ankerl/unordered_dense.h:427-433 | with up to 2^24 - 2 buckets, every bucket word and every probe fits in 32 bits |
| HashTable.Table.constructor | deps/unordered_dense/include/ankerl/unordered_dense.h:1216-1231 | a new table is valid and empty, and has the smallest bucket count that admits the size asked for, exactly when there is one; otherwise it ends with the shift stored and no buckets, where the source is undefined |
| HashTable.Table.NextWhileLess | deps/unordered_dense/include/ankerl/unordered_dense.h:930-939 | returns the first bucket, counted from the key's home, that the key's probe is not behind, having met no entry with the key |
| HashTable.Table.PlaceAndShiftUp | deps/unordered_dense/include/ankerl/unordered_dense.h:942-949 | afterwards the index holds exactly the entries it held and the one carried |
| HashTable.Table.ClearAndFillBucketsFromValues | deps/unordered_dense/include/ankerl/unordered_dense.h:1026-1036 | indexes every entry of the vector, from any buckets before |
| HashTable.Table.IncreaseSize | deps/unordered_dense/include/ankerl/unordered_dense.h:1038-1051 | doubles and rebuilds with all entries in order, or, at the largest bucket count, takes the new entry back and reports so |
| HashTable.Table.Emplace | deps/unordered_dense/include/ankerl/unordered_dense.h:1573-1603 | appends the entry if its key is absent, else returns the index of the present one and changes nothing; overflow leaves the table as it was; the bucket array doubles exactly when the entry exceeds the capacity |
| HashTable.Table.TryEmplace | deps/unordered_dense/include/ankerl/unordered_dense.h:1134-1155 | the same effect and answer as emplace, reached without pushing the entry first |
| HashTable.Table.InsertOrAssign | deps/unordered_dense/include/ankerl/unordered_dense.h:1107-1113 | the map afterwards binds the key to the value, every other binding is as before, and the answer says whether the key was there |
| HashTable.Table.Find | deps/unordered_dense/include/ankerl/unordered_dense.h:1158-1195 | returns what a linear scan of the entries returns, for every key, present or absent, although the first two probes skip the exit test |
| HashTable.Table.BucketPointingTo | deps/unordered_dense/include/ankerl/unordered_dense.h:1652-1659 | the search by index ends at the one bucket that holds it, and passes only full buckets, so an empty bucket with index 0 is never taken for entry 0 |
| HashTable.Table.Unlink | deps/unordered_dense/include/ankerl/unordered_dense.h:1053-1063 | the backward shift removes one entry from the index, keeps all others, and restores the order |
| HashTable.Table.DoErase | deps/unordered_dense/include/ankerl/unordered_dense.h:1053-1083 | removes exactly the entry its bucket points to; the last entry takes its place and its bucket is repaired |
| HashTable.Table.DoEraseKey | deps/unordered_dense/include/ankerl/unordered_dense.h:1086-1104 | removes and hands out the entry of the key, or nothing if the key is absent |
| HashTable.Table.EraseKey | deps/unordered_dense/include/ankerl/unordered_dense.h:1716-1719 | the map loses exactly the binding of the key; the count is 1 if and only if the key was there |
| HashTable.Table.EraseAt | deps/unordered_dense/include/ankerl/unordered_dense.h:1652-1681 | removes and hands out the entry an iterator points to, the last entry moving to its place |
| HashTable.Table.EraseRange | deps/unordered_dense/include/ankerl/unordered_dense.h:1692-1714 | leaves the entries without the range, the gap filled from the back, in both cases of the minimum that splits the loop |
| HashTable.Table.Clear | deps/unordered_dense/include/ankerl/unordered_dense.h:1404-1407 | empties the table and keeps it valid |
| HashTable.Table.Rehash | deps/unordered_dense/include/ankerl/unordered_dense.h:1884-1894 | keeps the entries in order and ends at the smallest bucket count that admits both the request and the entries, exactly when some bucket count admits them; otherwise it ends with the entries kept, the shift stored and the buckets freed, where the source is undefined |
| HashTable.Table.Reserve | deps/unordered_dense/include/ankerl/unordered_dense.h:1896-1909 | keeps the entries in order, makes room for the request and never shrinks the bucket array, exactly when some bucket count admits the request and the entries; otherwise it ends with the entries kept, the shift stored and the buckets freed, where the source is undefined |
| HashTable.Table.Replace | deps/unordered_dense/include/ankerl/unordered_dense.h:1455-1505 | takes over any vector, duplicates included, with the result of the reference algorithm; refuses vectors the index type cannot address, and ends with the buckets freed, where the source is undefined, for exactly those that no bucket count admits |
| HashTable.Table.Equals | deps/unordered_dense/include/ankerl/unordered_dense.h:1928-1951 | true if and only if the two tables stand for the same map, whatever the order of their entries |
| Entries.IndexOfContents | deps/unordered_dense/include/ankerl/unordered_dense.h:1158-1195 | a scan finds a key exactly if the map has it, at an entry with the value the map gives |
| Entries.ContentsRemove | deps/unordered_dense/include/ankerl/unordered_dense.h:1066-1082 | filling the hole from the back keeps keys unique and removes exactly one binding |
| Entries.WithoutRangeExact | deps/unordered_dense/include/ankerl/unordered_dense.h:1692-1714 | what range erase leaves is, as a multiset, the entries minus the range, and the part before the range is untouched |
| Entries.WithoutRangeContents | deps/unordered_dense/include/ankerl/unordered_dense.h:1692-1714 | as a map, range erase removes exactly the keys of the range |
| Entries.HalfRemovedMove | deps/unordered_dense/include/ankerl/unordered_dense.h:1699-1704 | one step of the left-to-right loop advances the gap by one entry taken from the back |
| Entries.DedupCorrect | deps/unordered_dense/test/unit/fuzz_replace_map.cpp:32-43 | the reference for replace ends with unique keys, the key set of its input, and entries of its input only; what is already unique in front stays |
| Entries.DedupFirstDuplicate | deps/unordered_dense/test/unit/fuzz_replace_map.cpp:32-43 | the first entry whose key occurs before it is removed, the back entry taking its place, and all before it stay; together with DedupUnique this determines the result |
| Entries.DedupUnique | deps/unordered_dense/include/ankerl/unordered_dense.h:1455-1505 | replacing by a vector without duplicates takes it over unchanged |
| TableRuns.StepRefines | deps/unordered_dense/include/ankerl/unordered_dense.h:1404-1719 | every operation on the entries has its effect on the map they stand for, with the same answer: an iterator or a range removes exactly the keys it denotes, and a vector taken over gives exactly its keys, each bound as in one of its entries |
| TableRuns.StepByKeyRefines | deps/unordered_dense/include/ankerl/unordered_dense.h:1404-1603 | an operation that speaks of keys only is the operation of the same name on the map alone |
| TableRuns.RunRefines | deps/unordered_dense/include/ankerl/unordered_dense.h:1404-1719 | step by step, any run of operations of all kinds has the effects of its operations on the map |
| TableRuns.RunByKeyRefines | deps/unordered_dense/include/ankerl/unordered_dense.h:1404-1603 | any run of operations by key is a run on the map alone, with the same answers |
| TableRuns.DedupBound | deps/unordered_dense/include/ankerl/unordered_dense.h:1455-1505 | the map of a vector taken over has its keys, each bound as in one of its entries |
| TableRuns.StepUnique | deps/unordered_dense/include/ankerl/unordered_dense.h:1404-1719 | no operation, range erase and replace included, ever makes keys repeat |
| TableRuns.PerformAll | deps/unordered_dense/include/ankerl/unordered_dense.h:1404-1909 | any run of operations on a table keeps it valid, gives the entries and the answers of the run on entries, and has every effect on the map; for operations by key it is the run on the map alone |
| ExpressionParser.Parser.BinaryRule | src/ast.hpp:109-124 | the folding loop of one precedence level, driving the lexer, consumes and builds what the grammar says, for any source and any error |
| ExpressionParser.Parser.PeekKind | src/lexer.cpp:219-232 | the type of the first token left, or the report of an unknown character where no token is left |
| ExpressionParser.Parser.Match | src/lexer.cpp:168-177 | consumes one token of the source exactly if it has the type |
| ExpressionParser.Parser.Advance | src/lexer.cpp:151-166 | consumes one token of the source and gives it with its text |
| ExpressionParser.Parser.Unary | src/ast.cpp:977-994 | a prefix operator takes a unary operand |
| ExpressionParser.Parser.Primary | src/ast.cpp:795-918 | an inner expression or literal with its postfixes agrees with the grammar, errors included |
| ExpressionParser.Parser.Bracket | src/ast.cpp:803-850 | one bracket, an index or a slice, agrees with the grammar and consumes tokens |
| ExpressionParser.Parser.AfterIndex | src/ast.cpp:813-849 | after the expression in a bracket, a colon makes a slice and a closing bracket an index, as the grammar says |
| ExpressionParser.Parser.AfterBrackets | src/ast.cpp:852-880 | one access or one call, and nothing after it, ends a primary, as the grammar says |
| ExpressionParser.Parser.PrimaryInner | src/ast.cpp:1001-1122 | grouped, named, prefixed and braced expressions agree with the grammar |
| ExpressionParser.Parser.ListUpTo | src/ast.cpp:722-740 | a comma-separated list up to its closing token agrees with the grammar |
| ExpressionParser.Parser.Elements | src/ast.cpp:774-793 | the elements of an array literal, at least one, agree with the grammar |
| ExpressionParser.Parser.Expression | src/ast.cpp:1159-1162 | the outcome and the cursor after parsing an expression are those of the grammar on the tokens of the source; an unknown character is reported only where there is one, and never once the grammar leaves a token unread |
| Precedence.LadderParses | src/ast.cpp:1124-1162 | with the ladder of binary operators written out, two operators between three operands group as their rungs say, to the left on the same rung |
| Precedence.LadderComplete | src/ast.cpp:1124-1162 | no other token is a binary operator |
| Precedence.PrefixParses | src/ast.cpp:977-994 | a prefix operator binds more tightly than any binary one, on either side of it |
| Precedence.AccessParses | src/ast.cpp:852-863 | a point or a double colon after a base takes the primary after it as the accessor |
| Precedence.PointerParses | src/ast.cpp:1101-1110 | an ampersand or a caret takes the primary after it |
| Precedence.LiteralParses | src/ast.cpp:882-925 | a literal stands for itself, and only a binary operator carries on after it |
| Precedence.NameBeforeBrace | src/ast.cpp:1044-1053 | where initialization is not allowed, a name before a brace is the whole expression |
| Precedence.AttributeParses | src/ast.cpp:1079-1084 | the four attribute keywords stand for themselves |
| Precedence.StartRefused | src/ast.cpp:795-925 | a token that is in none of the lists of beginnings is an error wherever an expression starts |
| ParserTheorems.ParseConsumes | src/ast.cpp:795-1162 | for any tokens the lexer can give, errors behind the expression included: a parsed tree respects precedence, and flattens to the tokens consumed without trailing commas: to exactly the tokens consumed if and only if no comma trails |
| ParserTheorems.ParseFlattened | src/ast.cpp:795-1162 | every tree that respects precedence is what its own tokens parse to, with nothing left over |
| ParserTheorems.ParseAgain | src/ast.cpp:795-1162 | flattening a parsed tree and parsing again gives the same tree |
| ParserTheorems.WellFormedIffParsed | src/ast.cpp:1124-1162 | the trees that respect precedence, left operand at or above its operator's level and right operand strictly above, are exactly the parser's results |
| ParserTheorems.FlattenInjective | src/ast.cpp:1124-1162 | no two such trees have the same tokens: the grammar is unambiguous |
| ParserTheorems.FlattenNoErrors | src/ast.cpp:795-1162 | no tree is written with an error token or the end |
| ParserTheorems.TrailingCommaLost | src/ast.cpp:955-970 | every call with arguments also parses from its tokens with one comma more, which flattening does not give back |
| ParserTheorems.ListParsesTrailing | src/ast.cpp:955-970 | a list and the same list with a trailing comma parse to the same elements |
| ParserInverse.LevelParses | src/ast.hpp:109-124 | a tree of a level parses from its tokens at that level, whatever follows that does not extend it |
| ParserInverse.SliceReads | src/ast.cpp:813-829 | a slice with or without its ends is read back, and further postfixes are read after it |
| ParserSound.LevelSound | src/ast.hpp:109-124 | what a level returns is a tree of that level, written by the tokens consumed, that the next token does not extend |
| ParserSound.StripChangesNothing | src/ast.cpp:955-970 | dropping trailing commas changes a list of tokens if and only if it has one |
| LexRoundTrip.UnquoteEncoded | src/lexer.cpp:380-437 | however each character of a string is written, plainly or by its escape, the quoted text is read as the string |
| LexRoundTrip.EscapeEncodes | src/lexer.cpp:347-363 | every string can be written so |
| LexRoundTrip.StringLiteralReadsBack | src/lexer.cpp:380-437 | lexing a quoted writing of any string gives a string literal of exactly its characters |
| LexRoundTrip.EscapeRead | src/lexer.cpp:346-363 | each of the eleven escapes is read as the character it stands for, and a backslash before anything else as itself |
| LexRoundTrip.EscapedCharRead | src/lexer.cpp:439-467 | a character literal reads the same escapes |
| LexRoundTrip.CharReadsBack | src/lexer.cpp:440-466 | every character literal is read back |
| LexRoundTrip.IntegerReadsBack | src/lexer.cpp:316-344 | a digit string is read back as one integer |
| LexRoundTrip.DecimalReadsBack | src/lexer.cpp:316-344 | digits, a point and digits are read back as one decimal |
| LexRoundTrip.WordReadsBack | src/lexer.cpp:468-483 | a name is read whole, as the keyword it is or as an identifier |
| LexRoundTrip.FixedReadsBack | src/lexer.cpp:72-148 | every operator and keyword is read back from its spelling, by longest match |
| LexRoundTrip.TokenReadsBack | src/lexer.cpp:72-148 | every printable token is read back, and what follows is left over |
| LexRoundTrip.TokensReadBack | src/lexer.cpp:72-148 | any list of printable tokens, printed with single spaces, lexes to itself |
| LexedTokens.OperatorSpelled | src/lexer.cpp:83-131 | the operator read is spelled by the text it is read from |
| LexedTokens.OperatorIsLongest | src/lexer.cpp:83-131 | no operator that the text starts with is longer than the one read |
| LexedTokens.KeywordSpelled | src/lexer.cpp:15-58 | a name read as a keyword spells that keyword |
| LexedTokens.TokenLexed | src/lexer.cpp:72-148 | whatever the text, a token of fixed spelling carries that spelling, and every token but errors and the end is one that printing and lexing give back |
| LexedTokens.TokensLexed | src/lexer.cpp:72-148 | the same of every token of any source text |
| LexedTokens.LexAgain | src/lexer.cpp:72-148 | printing the tokens of any source text without errors and lexing the result gives the same tokens |
| LexRules.BlankIgnored | src/text_reader.cpp:101-109 | a space, tab, carriage return or newline before a token changes nothing |
| LexRules.CommentIgnored | src/lexer.cpp:74-80 | a comment up to the end of its line changes nothing |
| LexRules.LastCommentIgnored | src/lexer.cpp:74-80 | a comment up to the end of the text leaves the end |
| LexRules.NameLexes | src/text_reader.cpp:111-114 | a name is made of letters, digits and underscores, does not start with a digit, and ends before anything else |
| LexRules.FixedLexes | src/lexer.cpp:16-58 | with the tables of keywords and marks written out, each is read as the token the tables say |
| LexRules.KeywordIff | src/lexer.cpp:469-484 | a name is a keyword exactly where the tables say |
| LexRules.IntegerLexes | src/lexer.cpp:316-344 | digits are an integer unless a point follows, and even then if the point starts a range |
| LexRules.DecimalLexes | src/lexer.cpp:316-344 | digits, a point and digits are one decimal |
| LexRules.PointIsError | src/lexer.cpp:332-338 | a point after digits with neither a digit nor a point after it is an error, which takes the point |
| LexRules.OpenStringIsError | src/lexer.cpp:411-414 | a string without a closing quote is an error, which takes the rest of the text |
| LexRules.OpenCharIsError | src/lexer.cpp:460-463 | a character literal that is not closed is an error after its character |
| LexRules.NullIsEnd | src/lexer.cpp:116-116 | a null character is read as an end |
| LexRules.UnknownIff | src/lexer.cpp:84-148 | a character that is not passed over is unknown if and only if it is no letter, digit, underscore, mark, quote or null character |
| TokenStream.TokensOfAt | src/lexer.cpp:72-148 | the tokens of a text up to its end or its first unknown character are what lexing finds position by position; behind them there is only the end, or nothing exactly if a character is unknown |
| TokenStream.TokensOfPrinted | src/lexer.cpp:72-148 | the tokens of a printed text are exactly those printed |
| Lexing.DigitsAreAll | src/lexer.cpp:318-324 | the digits scanned are the longest run of digits |
| Lexing.NameLengthIsAll | src/text_reader.cpp:56-64 | the name scanned is the longest run of identifier characters |
| TextReading.LineCountsNewlines | src/text_reader.cpp:20-40 | the line is one more than the newlines passed |
| TextReading.ColumnCountsFromNewline | src/text_reader.cpp:20-40 | the column counts from the last newline |
| TextReading.TextReader.Advance | src/text_reader.cpp:20-40 | gives the next character, or a null character at the end without moving, and keeps line and 16-bit column true to the offset |
| TextReading.TextReader.SkipUntil | src/text_reader.cpp:116-122 | stops at the next occurrence of the character, or at the end |
| TextReading.TextReader.IsEscapeSequence | src/text_reader.cpp:181-199 | after a backslash, consumes the next character exactly if it completes one of the eleven escapes |
| TextReading.Arena.Write | src/memory/arena.cpp:19-28 | appends; everything written before stays as it was |
| SourceLexer.Lexer.BuildToken | src/lexer.cpp:266-280 | a token carries the reader's location and the text given, or the text read since it started if none is given |
| SourceLexer.Lexer.ScanString | src/lexer.cpp:380-413 | up to the closing quote, the characters read are in the source or, from the first escape on, in the buffer behind the opening quote |
| SourceLexer.Lexer.BuildString | src/lexer.cpp:380-437 | the literal's text is that of the unescaped string whether or not the buffer was used; an unclosed string is an error token |
| SourceLexer.Lexer.BuildChar | src/lexer.cpp:440-466 | a character literal, its escape or its error, as the grammar of characters says |
| SourceLexer.Lexer.BuildDigit | src/lexer.cpp:316-344 | an integer, a decimal, or the error of a point without digits; a point that starts a range is left |
| SourceLexer.Lexer.BuildIdentifier | src/lexer.cpp:468-483 | a name with its keyword type |
| SourceLexer.OperatorsByFirst | src/lexer.cpp:83-131 | each case of the switch by the first character reads the operator that the table of operators gives |
| SourceLexer.Lexer.SkipComments | src/lexer.cpp:72-80 | skips blanks and any number of line comments |
| SourceLexer.Lexer.AdvanceOne | src/lexer.cpp:72-148 | scans the first token of the text left, fails exactly on a character that starts none, and keeps room in the buffer |
| SourceLexer.Lexer.Advance | src/lexer.cpp:151-166 | moves the window by exactly one token, whether or not the next one was looked at before |
| SourceLexer.Lexer.Peek | src/lexer.cpp:219-227 | gives the current token, the first one at the start, and moves nothing otherwise |
| SourceLexer.Lexer.PeekNext | src/lexer.cpp:234-244 | gives the token after the current one without moving |
| SourceLexer.Lexer.PeekLast | src/lexer.cpp:251-254 | gives the token before the current one, or an empty token |
| SourceLexer.Lexer.Match | src/lexer.cpp:168-177 | moves past the current token exactly if it has the type |
| SourceLexer.Lexer.MatchNext | src/lexer.cpp:192-201 | moves on to the next token exactly if it has the type |
| SourceLexer.Lexer.MatchBoth | src/lexer.cpp:179-190 | moves past two tokens exactly if both have the types |
| SourceLexer.Lexer.Expect | src/lexer.cpp:203-217 | moves past and gives the current token if it has the type, else stays at it and reports it |
| LexerRuns.Perform | src/lexer.cpp:151-254 | each call answers and moves as on a cursor over the source's token list, and fails exactly if the text lacks a token the call looks at |
| LexerRuns.PerformAll | src/lexer.cpp:151-254 | for any run of calls every answer is that of the cursor, and at the end every lexeme handed out on the way still reads as its token; the run fails exactly at the first call that needs a token the text does not have, and on a printed text never |
| LexerRuns.PrintedAvailable | src/lexer.cpp:151-254 | a printed text has every token that any call at any position looks at |
| LexerRuns.CallsFit | src/lexer.cpp:151-254 | looking ahead shows the token moved to next, looking back the one moved from, and a match or an expectation that is met has passed the token asked for |
| LexRoundTrip.PrintedTokens | src/lexer.cpp:72-148 | position by position, the tokens of a printed text are those printed, followed by the end for ever |
| SourceRoundTrip.SourceReadsBack | src/ast.cpp:795-1162 | an expression printed as source text is lexed and parsed back to itself |
| SourceRoundTrip.SourceConsumes | src/ast.cpp:795-1162 | for every source text, a parsed tree respects precedence and flattens to the tokens consumed if and only if no comma trails |
| SourceRoundTrip.SourceParsesAgain | src/ast.cpp:795-1162 | whatever is parsed from any source text, printed and parsed again, is the same tree |
| SourceRoundTrip.ParseSource | src/ast.cpp:1159-1162 | the parser class on a lexer class over a source text gives the tree or the error of the grammar, or reports an unknown character; it gives a tree if and only if the grammar does and no unknown character comes right after the expression; every printed tree is given back |
| SourceRoundTrip.PrintInjective | src/lexer.cpp:72-148 | different token lists are printed as different texts |
| SourceRoundTrip.SourceInjective | src/ast.cpp:795-1162 | different expressions are printed as different texts |
| SourceForms.WordsParse | src/ast.cpp:795-1162 | with the words of every construct written out, an expression written in its words is read as that expression |
| SourceForms.LadderText | src/ast.cpp:1124-1162 | in a source text, two operators between three operands group as the ladder says |
| ModuleLoader.RegisterConsistent | src/module_manager.cpp:93-98 | registering a module before it is parsed keeps the registry free of repetitions and the open chain a chain of imports |
| ModuleLoader.EmitConsistent | src/module_manager.cpp:113-128 | closing a module whose imports are all registered keeps every earlier emission in order |
| ModuleLoader.Loader.GetModule | src/module_manager.cpp:41-160 | finds a loaded module or loads it; it gives nothing only if the path is in no include directory or nothing but the code of the module is rejected, and raises an error only if a module reachable from it is faulty that was not loaded before |
| ModuleLoader.Loader.Analyze | src/analyzer.cpp:337-345 | succeeds only after every import of the module is registered |
| ModuleLoader.LoadProgram | src/module_manager.cpp:41-160 | loading succeeds if and only if every module reachable from the main one is sound, its code included, and gives nothing if and only if there is no main module or nothing but its own code is rejected; on success the registry is exactly the reachable modules, each loaded and emitted once, each after its imports except those on a cycle with it; the loader is left consistent, each import emitted before its importer or on the chain of imports open at that time, and modules are registered and emitted in the depth-first order of the imports |
| ModuleLoader.ResolveFindsFirst | src/module_manager.cpp:47-89 | a path stands for the file at the first include path that has one, and for none if and only if no include path has one |
| ModuleLoader.OnlyCyclesDefer | src/module_manager.cpp:75-80 | an import not yet emitted when its importer is emitted reaches the importer again |
| ModuleLoader.ClosedReaches | src/module_manager.cpp:97-128 | a set of modules closed under imports contains everything reachable from its members |
| EnumFlags.EnumFlagsName | deps/magic_enum/include/magic_enum/magic_enum_flags.hpp:67-93 | the loop prints, with any separator, the names of the selected flags in order, or nothing if one has no name or bits are left over |
| EnumFlags.PrintedIff | deps/magic_enum/include/magic_enum/magic_enum_flags.hpp:67-93 | for flags of one bit or several, a value is printed if and only if it is not zero, has declared bits only, and every flag that shares a bit with it has a name and lies in it |
| EnumFlags.EnumFlagsCast | deps/magic_enum/include/magic_enum/magic_enum_flags.hpp:134-167 | the loop reads names between bars, compared by any comparison of characters, and collects their bits, or fails at the first unknown one |
| EnumFlags.ReadIff | deps/magic_enum/include/magic_enum/magic_enum_flags.hpp:145-166 | a text is read if and only if it is not empty and every part between bars names a flag with bits, a bar at the end aside; the result is the bits of them all |
| EnumFlags.PartsMakeUp | deps/magic_enum/include/magic_enum/magic_enum_flags.hpp:146-161 | the parts are free of bars and, with bars between them, make up the text |
| EnumFlags.LookupIsFirst | deps/magic_enum/include/magic_enum/magic_enum_flags.hpp:149-155 | the flag a part names is the first one whose name is the same |
| EnumFlags.CmpEqual | deps/magic_enum/include/magic_enum/magic_enum.hpp:393-418 | the loop decides whether two names are of one length and agree character by character |
| EnumFlags.ReadJoined | deps/magic_enum/include/magic_enum/magic_enum_flags.hpp:134-167 | reading any joined list of readable names collects exactly their bits |
| EnumFlags.PrintedReadsBack | deps/magic_enum/include/magic_enum/magic_enum_flags.hpp:67-93 | whatever is printed non-empty is read back as the value printed, even for flags of several bits and under any comparison that tells the names apart |
| EnumFlags.SelectedBits | deps/magic_enum/include/magic_enum/magic_enum_flags.hpp:76-85 | the bits of the flags selected are the value's bits among all declared ones |
| EnumFlags.ExactlyReadable | deps/magic_enum/include/magic_enum/magic_enum_flags.hpp:134-167 | compared exactly, names are readable if and only if they are distinct, non-empty and free of the bar |
| EnumFlags.RoundTripIff | deps/magic_enum/include/magic_enum/magic_enum_flags.hpp:67-167 | for single-bit flags, printing and reading back gives the value if and only if it is non-zero and built from declared flags; any other value prints as empty and reads as none |
| EnumFlags.OtherSeparatorIff | deps/magic_enum/include/magic_enum/magic_enum_flags.hpp:67-167 | a value printed with a separator other than the bar is read back if and only if it is made of one flag |
| EnumFlags.OtherSeparatorFails | deps/magic_enum/include/magic_enum/magic_enum_flags.hpp:67-167 | two flags printed with any separator other than the bar read as none |
| EnumIndex.GetIndices | deps/magic_enum/include/magic_enum/magic_enum_containers.hpp:128-160 | the exchange sort yields a permutation that sorts by any strict order, with the table of positions that inverts it |
| EnumIndex.TablesInverse | deps/magic_enum/include/magic_enum/magic_enum_containers.hpp:162-176 | the two tables are inverse: the value at an enumerator's position is the enumerator |
| EnumIndex.PermutationMultiset | deps/magic_enum/include/magic_enum/magic_enum_containers.hpp:153-158 | the sorted table holds every value as often as the enum declares it |
| EnumFuse.ComputeLog2 | deps/magic_enum/include/magic_enum/magic_enum.hpp:441-452 | the shifting loop computes the integer logarithm |
| EnumFuse.WidthFits | deps/magic_enum/include/magic_enum/magic_enum_fuse.hpp:42-49 | the shift used per enum is the least number of bits that holds every index |
| EnumFuse.FuseIsValue | deps/magic_enum/include/magic_enum/magic_enum_fuse.hpp:42-59 | fusing is the mixed-radix number of the indices, cut to 64 bits |
| EnumFuse.ValueInjective | deps/magic_enum/include/magic_enum/magic_enum_fuse.hpp:42-59 | that number determines the indices |
| EnumFuse.FuseInjectiveIff | deps/magic_enum/include/magic_enum/magic_enum_fuse.hpp:72-86 | fusing is injective if and only if the shifts used add up to at most 64 |
| EnumFuse.IndexInFused | deps/magic_enum/include/magic_enum/magic_enum_fuse.hpp:42-59 | where the shifts add up to at most 64, each index can be read from the fused word behind those before it |
| EnumFuse.AssertionTooWeak | deps/magic_enum/include/magic_enum/magic_enum_fuse.hpp:78-78 | enums that pass the static assertion and still collide |
| EnumFuse.AssertedWidthIs | deps/magic_enum/include/magic_enum/magic_enum_fuse.hpp:78-78 | the width the static assertion reckons with is the integer logarithm of one more than the number of enumerators |
| EnumFuse.FuseFailsIff | deps/magic_enum/include/magic_enum/magic_enum_fuse.hpp:42-59 | fusing gives nothing if and only if some value is no enumerator |
| Wyhash.Mum | deps/unordered_dense/include/ankerl/unordered_dense.h:166-193 | the portable multiplication of halves with two carries gives the full 128-bit product, with no overflow |
| Wyhash.Carries | deps/unordered_dense/include/ankerl/unordered_dense.h:180-190 | two wrapped additions and the two comparisons after them account for all of the product |
| Wyhash.HashReads | deps/unordered_dense/include/ankerl/unordered_dense.h:219-264 | for every key length, the number and size of the reads, and beyond 16 bytes which ones they are; all lie inside the key and together they touch every byte |
| SegmentedVectors.SlotBijection | deps/unordered_dense/include/ankerl/unordered_dense.h:720-726 | shift and mask map indices one to one onto slots of blocks |
| SegmentedVectors.BlocksForCapacityLeast | deps/unordered_dense/include/ankerl/unordered_dense.h:655-657 | the number of blocks computed is the least that holds the capacity |
| SegmentedVectors.NumBitsClosest | deps/unordered_dense/include/ankerl/unordered_dense.h:535-541 | the largest shift that fits, provided that one element fits; else 0, although nothing fits |
| SegmentedVectors.ShiftsFit | deps/unordered_dense/include/ankerl/unordered_dense.h:535-541 | for element and block sizes below 2^63 no shift of that search leaves the word, so none wraps |
| SegmentedVectors.SegmentedVector.EmplaceBack | deps/unordered_dense/include/ankerl/unordered_dense.h:776-784 | appends to the sequence, moving no block that was there, and allocates only when full |
| SegmentedVectors.SegmentedVector.PopBack | deps/unordered_dense/include/ankerl/unordered_dense.h:755-758 | drops the last element |
| SegmentedVectors.SegmentedVector.Reserve | deps/unordered_dense/include/ankerl/unordered_dense.h:764-769 | keeps the sequence and has the least number of blocks that suffices, or those there were |
| SegmentedVectors.SegmentedVector.ShrinkToFit | deps/unordered_dense/include/ankerl/unordered_dense.h:795-803 | keeps the sequence and frees every block it does not need |
| SegmentedVectors.SegmentedVector.Get | deps/unordered_dense/include/ankerl/unordered_dense.h:720-726 | indexing gives the element of the sequence |
| SegmentedVectors.PerformAll | deps/unordered_dense/include/ankerl/unordered_dense.h:711-803 | any run of operations gives the elements and ends with the elements of a plain vector under the same run, in as many blocks as that run predicts |
| SegmentedVectors.RunKeepsRoom | deps/unordered_dense/include/ankerl/unordered_dense.h:715-717 | after any run the blocks have room for the elements |

## Left out

Weaker than the code, on purpose:

- HashTable.Table.constructor: stops where the code shifts by 64; what the code does after that is not defined.
- HashTable.Table.Rehash: stops at the same point.
- HashTable.Table.Reserve: stops at the same point.
- HashTable.Table.Replace: stops at the same point.
- TableRuns.PerformAll: covers runs whose operations the source defines: iterators into the vector, and requests some bucket count admits.
- RobinHood.WordsFit: bucket words are unbounded numbers in the model, so wrap-around of 32-bit words at probe distances of 2^24 and more is not modelled; this lemma says up to which bucket count they cannot wrap.
- Wyhash.HashReads: covers which bytes are read, not the hash value mixed from them; no property of hash quality is claimed.
- TextReading.Arena.Write: requires the room that the code never checks for; a write beyond the capacity is not modelled.
- SourceLexer.Lexer.ScanString: requires room in the escape buffer for the text from the token on, for the same reason.
- SourceLexer.Lexer.BuildString: requires the same room.
- SourceLexer.Lexer.BuildChar: requires the same room.
- SourceLexer.Lexer.AdvanceOne: requires room for the text left, and keeps it.
- SourceLexer.Lexer.constructor: requires room for the whole text, for the same reason.
- LexerRuns.PerformAll: requires room for the whole text, for the same reason.
- SourceRoundTrip.ParseSource: requires room for the whole text, for the same reason.
- SegmentedVectors.NumBitsClosest: shifts are unbounded, while a 64-bit shift wraps for sizes of 2^63 and more; `SegmentedVectors.ShiftsFit` says that below that size none wraps.
- ExpressionParser.Parser.Expression: agrees with a grammar in which a cast, and an array literal with a leading type, are a `NotModelled` error, because types are not part of this model.
- ExpressionParser.Parser.Primary: leaves out array literals with a leading type, for the same reason.
- ExpressionParser.Parser.Bracket: the same.
- ExpressionParser.Parser.AfterIndex: the same.
- ExpressionParser.Parser.PrimaryInner: leaves out casts, for the same reason.
- ModuleLoader.LoadProgram: whether a declaration is valid, and how the emission of a module ends, are parameters fixed per file; that they depend on what the imports declare is not modelled.
- ModuleLoader.Loader.GetModule: the same.
- TextReading.TextReader.PeekNext: the byte just behind the source is taken to be zero, as it is while the file loaded last is lexed.

Not modelled:

- Hash table: load factors other than the default of 0.8, allocators, moves, exceptions thrown by element types, iterators beyond their position, transparent lookup, `shrink_to_fit` of the vector, copying of tables.
- Hash table: the hash is an arbitrary function to 64-bit numbers and key equality is equality.
- Parser: types, statements, attributes and declarations are not part of this model.
- Parser: numeric values of literals, node locations, and the text of error messages; errors are told apart only by kind.
- Parser: whether a brace after a name starts a struct literal is a parameter, as it does not change within one expression.
- Lexer: `set_source` on a lexer already in use, and characters beyond single bytes.
- Module loader: how a path is turned into candidate file names, which is a parameter; a file is the list of its imports, whether its other declarations are sound, and how the emission of its code ends.
- Enum utilities: reflection of names and values, which are parameters; `lower_bound`, `equal_range`, `bitset` and the integer cast.
- Segmented vector: construction and destruction of elements, copying, iterators.
- Code generation, types, overload selection, the return-path flags, the command line, configuration and file reading.
