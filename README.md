# Ark s-expression parser, modelled in Dafny

This project models the front end of the Ark scripting language: the parser
that turns source text into a tree of s-expression nodes and reports errors
with a window of source context. The model covers these parts:

- **Character predicates** (`predicates.dfy`, module `Predicates`). These are the
  `CharPred` structs: space, inline space, digit, upper, lower, alpha, alnum,
  print, `IsChar(k)`, `IsAny`, the `IsEither`/`IsNot` combinators and `IsMinus`.
  They form a datatype with `Eval` and `Name`. The ctype tests are the ASCII
  ("C" locale) classes.
- **Cursor** (`baseparser.dfy`, module `Cursor`; `scan.dfy`, module `Scan`). This
  is `BaseParser`, a class with the buffer and the fields `m_count`, `m_row`,
  `m_col`, `m_sym` and `backtrack_count`. `accept`, `expect`, `backtrack` and the
  greedy lexers are methods. Each method is proved against position functions:
  `CharAt` reads the NUL terminator at `size`, `RowAt`/`ColAt` derive row and
  column from a prefix, and `Run` is the length of a run of accepted bytes.
  The class invariant says the row, column and symbol are the ones derived from
  the first `m_count` bytes.
- **Legacy cursor** (`combinator.dfy`, module `Combinators`). This is
  `ParserCombinators`: the same fields without the counter, an `accept` with no
  end-of-input guard, an EOF test with `>=`, and a `name` that must start with
  a letter. Comparison lemmas relate its runs to `BaseParser`'s.
- **AST** (`node.dfy`, module `Ast`). `Node` is a kind plus a payload that is an
  integer, a string or a list of children. The file has the constructors,
  `push_back` and the `operator<<` serialiser.
- **Grammar reference** (`syntax.dfy`, module `Syntax`; `reference.dfy`, module
  `Reference`). `Syntax` holds what the grammar reads from the input (where
  white space and comments end, the name and package name at a position, the
  numeral and string texts), the tables of alternatives and keywords, the error
  messages and the shapes of the nodes each production builds. `Reference`
  gives every production of `parser.cpp` as a function of the input and a
  position. Its answer is an `Outcome`: the production declines, yields a node
  and the position after it, or throws an error at a position. Each function's
  contract states when it declines, the shape of what it yields and which
  error it can throw. `ProgramAt` is the whole `parse()` loop.
- **Ordered choice** (`choice.dfy`, module `Choice`). Lemmas about the tables:
  `atom` and `node` answer with the first entry that does not decline, and
  decline iff every entry does. The atom order is written out as number,
  string, field, symbol. `nodeOrValue` and the callee of a call try an atom
  before a node.
- **Parser** (`parser.dfy`, module `Grammar`). This is the recursive-descent
  `Parser` class over the cursor. Each production is a method whose contract
  says it computes exactly its `Reference` function from the position where it
  starts:
  - the node it returns and where the cursor ends;
  - that it declines exactly when the function does, leaving the cursor where it was;
  - that a thrown `ParseError` (here an `Err` result) is the function's error, at the function's position.

  `node` and `atom` rewind to the saved offset after each alternative that
  declines. `Parse` appends exactly `ProgramAt`'s nodes to `m_ast`.
  Termination is proved on (bytes left, production rank), with no fuel.
- **Error context** (`errorctx.dfy`, module `ErrorContext`;
  `legacy_errorctx.dfy`, module `LegacyErrorContext`). These are
  `splitString`, both `makeContext`s, `makeTokenBasedErrorCtx` and the escaping
  of the error symbol. Each is an imperative method proved equal to a
  specification function. Lemmas about that function prove:
  - the line window;
  - the right-aligned line numbers;
  - the caret span;
  - the one-caret difference between the two renderers.
- `decimal.dfy` (module `Decimal`) holds the decimal text of integers: `std::stoi`
  and `operator<<` on line numbers. `wrappers.dfy` holds `Option` and `Result`.

## Where the code and the design description differ

The model follows the code in each case:

- The cursor works on bytes. One `next()` is one byte; there is no UTF-8 decoding.
- The string atom keeps every byte up to the next `"` verbatim. No escape
  sequence is resolved.
- A dotted chain is built as `Node(NodeType::Field)` with child symbols
  (src/parser.cpp:527-541). The enum in src/node.hpp has no `Field`, only
  `GetField` with a string payload. The model adds `Field` as a tenth kind
  with a list payload. The serialiser has no case for it and prints nothing.
- When `node()` declines at a position that is not the end of input, `parse()`
  does not raise an error. The cursor is back where it was, so the loop repeats
  the same step forever. `Grammar.Parser.Parse` returns `Diverges` there, and
  `Reference.DivergesAtFixedPoint` proves that a diverging program reaches
  such a fixed point.
- Number payloads are `double` in the code; here they are integers, which is
  what `std::stoi` produces.

## Model

| member | source | states |
|---|---|---|
| Predicates.InlineSpaceChars | src/combinator.hpp:33-41 | inline space holds iff space holds and the byte is neither '\n' nor '\r'; these are exactly ' ', '\t', '\v', '\f' |
| Predicates.NotLaw | src/combinator.hpp:132-144 | `IsNot(p)` accepts exactly what `p` rejects; double negation is `p`; its name is "~" + p's name |
| Predicates.EitherLaw | src/combinator.hpp:117-130 | `IsEither(a, b)` accepts iff `a` or `b` accepts (so it is symmetric); its name joins both names with a bar, in parentheses |
| Predicates.CharLaw | src/combinator.hpp:103-156 | `IsChar(k)` accepts exactly `k` and is named "'k'"; `IsMinus` accepts exactly '-'; `IsAny` accepts every byte |
| Predicates.ClassesRejectNul | src/combinator.hpp:23-101 | no ctype class accepts the NUL terminator |
| Scan.Run | src/baseparser.cpp:57-71 | the number of consecutive successful accepts stays within the buffer, and is positive iff the first accept succeeds |
| Scan.RowCountsLineFeeds | src/baseparser.cpp:19-33 | the row after `n` bytes is the number of '\n' in the prefix read |
| Scan.ColCountsSinceLineFeed | src/baseparser.cpp:19-33 | the column is the number of printable bytes since the last '\n' (or since the start) |
| Scan.RunIsMaximal | src/baseparser.cpp:144-177 | every byte of a run satisfies the predicate and is not NUL, and the run stops where accept fails |
| Scan.RunMonotone | src/combinator.hpp:117-130 | a run of `IsEither(a, b)` is at least as long as a run of `a` |
| Cursor.EolEnd | src/baseparser.cpp:113-124 | the position endOfLine stops at lies between its start and the end of the buffer |
| Cursor.BaseParser.constructor | src/baseparser.cpp:5-17 | for a non-empty buffer, the first byte is loaded with `m_count == 1`, the counter is 0 and the invariant holds |
| Cursor.BaseParser.Create | src/baseparser.cpp:5-17 | an empty buffer throws "Expected symbol, got empty string" at 0:0 with the EOF symbol; otherwise it behaves as the constructor |
| Cursor.BaseParser.IsEOF | src/baseparser.hpp:52 | end of input holds iff `m_count > size` or the current byte is NUL, so an embedded NUL also ends input |
| Cursor.BaseParser.Error | src/baseparser.hpp:42-45 | the error stores the message and expected text unchanged, with the cursor's row, column and symbol |
| Cursor.BaseParser.Next | src/baseparser.cpp:19-33 | advances `m_count` by one and re-establishes the row/column/symbol invariant; the counter is unchanged |
| Cursor.BaseParser.Backtrack | src/baseparser.cpp:35-55 | the rescan loop re-establishes the invariant at offset `n` (so row, column and symbol are those of the checkpoint) and the counter grows by exactly one |
| Cursor.BaseParser.Accept | src/baseparser.cpp:57-71 | succeeds iff not at EOF and the predicate holds; on success it advances by one and appends the old symbol; on failure nothing changes |
| Cursor.BaseParser.Expect | src/baseparser.cpp:73-83 | on a match it acts like a successful accept; on a mismatch it leaves the state unchanged and throws "Expected " + name, with the offending byte as the expected text |
| Cursor.BaseParser.AcceptWhile | src/baseparser.cpp:92-93 | `while (accept(p))` consumes exactly the maximal run and appends its text |
| Cursor.BaseParser.AcceptMany | src/baseparser.cpp:168-177 | the accept-then-loop shape consumes the maximal run and returns true iff it consumed something |
| Cursor.BaseParser.Space | src/baseparser.cpp:85-97 | consumes the maximal run of white space, returns true iff something was consumed, and appends exactly one ' ' then |
| Cursor.BaseParser.InlineSpace | src/baseparser.cpp:99-111 | the same for inline space (no '\n', no '\r') |
| Cursor.BaseParser.EolAttempt | src/baseparser.cpp:115 | one attempt consumes an optional '\r', then reports whether '\n' followed and was consumed |
| Cursor.BaseParser.EndOfLine | src/baseparser.cpp:113-124 | the result is whether the first attempt found '\n'; a lone '\r' stays consumed even when the result is false |
| Cursor.BaseParser.Number | src/baseparser.cpp:126-137 | consumes the maximal digit run and appends it; true iff non-empty |
| Cursor.BaseParser.SignedNumber | src/baseparser.cpp:139-142 | returns only whether digits followed (comma operator); a leading '-' stays consumed even without digits |
| Cursor.BaseParser.Name | src/baseparser.cpp:144-155 | consumes the maximal run of alnum-or-symbol bytes; true iff non-empty |
| Cursor.BaseParser.PackageName | src/baseparser.cpp:157-166 | succeeds iff the first byte is alphanumeric; then consumes alphanumerics or '_'; nothing is consumed on failure |
| Cursor.BaseParser.AnyUntil | src/baseparser.cpp:168-177 | consumes the maximal run of bytes that are not the delimiter; true iff non-empty |
| Cursor.BaseParser.OneOf | src/baseparser.cpp:179-194 | consumes the whole name and writes it even when it is not a word; true iff the name is non-empty and one of the words |
| Combinators.StopsWitness | src/combinator.cpp:56-66 | a legacy run terminates iff some byte ahead, up to the terminator, fails the predicate |
| Combinators.LegacyRun | src/combinator.cpp:56-66 | the number of consecutive legacy accepts stays within the buffer and is positive iff the current byte satisfies the predicate (no EOF guard) |
| Combinators.LegacyAcceptAgrees | src/combinator.cpp:56-66 | for a predicate that rejects NUL, the legacy accept succeeds exactly where BaseParser's does |
| Combinators.LegacyRunAgrees | src/combinator.cpp:56-66 | for such a predicate, whole legacy runs equal BaseParser runs |
| Combinators.LegacyRunCoversRun | src/combinator.cpp:56-66 | in general a legacy run is at least as long as a BaseParser run |
| Combinators.NulEndsOnlyBaseAnyUntil | src/combinator.cpp:147-155 | on "\0a)", BaseParser's anyUntil(')') stops at once while the legacy one consumes two bytes |
| Combinators.ParserCombinators.constructor | src/combinator.cpp:5-17 | for a non-empty buffer, the first byte is loaded with `m_count == 1` |
| Combinators.ParserCombinators.Create | src/combinator.cpp:5-17 | an empty buffer throws "Expected symbol, got empty string" with symbol EOF (-1) |
| Combinators.ParserCombinators.IsEOF | src/combinator.hpp:198 | holds iff BaseParser's test holds, or the cursor is on the last real byte (`>=` instead of `>`) |
| Combinators.ParserCombinators.Error | src/combinator.hpp:188-191 | the error carries the cursor's row, column and symbol as ints |
| Combinators.ParserCombinators.Next | src/combinator.cpp:19-33 | advances by one and keeps the row/column invariant |
| Combinators.ParserCombinators.Backtrack | src/combinator.cpp:35-54 | the rescan loop re-establishes the invariant at offset `n` |
| Combinators.ParserCombinators.Accept | src/combinator.cpp:56-66 | succeeds iff the predicate holds of the current symbol (NUL included); on failure nothing changes |
| Combinators.ParserCombinators.Expect | src/combinator.cpp:68-78 | on a mismatch it throws "Expected " + name with the state unchanged; otherwise it acts like accept |
| Combinators.ParserCombinators.RunStep | src/combinator.cpp:124 | one accept of a run that stops takes exactly one byte off the remaining legacy run, or finds it empty |
| Combinators.ParserCombinators.AcceptWhile | src/combinator.cpp:124 | a `while (accept(p))` loop consumes exactly the legacy run |
| Combinators.ParserCombinators.AcceptMany | src/combinator.cpp:147-155 | the accept-then-loop shape consumes the legacy run; true iff non-empty |
| Combinators.ParserCombinators.Space | src/combinator.cpp:80-91 | consumes the maximal white-space run and appends a single ' ' |
| Combinators.ParserCombinators.InlineSpace | src/combinator.cpp:93-104 | the same for inline space |
| Combinators.ParserCombinators.EolAttempt | src/combinator.cpp:108 | one legacy attempt moves exactly as BaseParser's attempt does, with the same result |
| Combinators.ParserCombinators.EndOfLine | src/combinator.cpp:106-116 | ends where BaseParser's endOfLine ends, with the same result; a lone '\r' stays consumed |
| Combinators.ParserCombinators.Number | src/combinator.cpp:118-128 | consumes the maximal digit run; true iff non-empty |
| Combinators.ParserCombinators.SignedNumber | src/combinator.cpp:130-133 | returns only whether digits followed; a leading '-' stays consumed |
| Combinators.ParserCombinators.Name | src/combinator.cpp:135-145 | succeeds iff the first byte is a letter; then consumes alphanumerics or '_'; nothing is consumed on failure |
| Combinators.ParserCombinators.NameByte | src/combinator.cpp:141 | accepting an alphanumeric, else '_', succeeds iff the byte is alphanumeric or '_' |
| Combinators.ParserCombinators.NameTail | src/combinator.cpp:141 | the loop consumes exactly the run of alphanumerics or '_' |
| Combinators.ParserCombinators.AnyUntil | src/combinator.cpp:147-155 | consumes the legacy run of bytes that are not the delimiter; true iff non-empty |
| Decimal.Stoi | src/parser.cpp:505 | a leading '-' gives the negated value of the digits, otherwise the non-negative value of the digits |
| Decimal.StoiRoundTrip | src/parser.cpp:502-507 | the decimal text of any integer is a signed numeral, and `stoi` reads it back to that integer |
| Decimal.NatToString | src/main.cpp:37 | `os << n` writes a non-empty digit string with no leading zero |
| Decimal.NatToStringRoundTrip | src/main.cpp:37 | the digits written for `n` have value `n` |
| Decimal.PadLeft | src/main.cpp:37 | `setw` right-aligns: width max(w, length), leading spaces, the text at the end |
| Ast.NewNode | src/node.cpp:3-28 | the kind is kept; List gets an empty child list; the string kinds get ""; Number gets 0; Unused keeps the numeric default |
| Ast.NewLeaf | src/node.cpp:30-32 | kind and string stored unchanged |
| Ast.NewNumber | src/node.cpp:34-44 | a Number node holding the value |
| Ast.NewList | src/node.cpp:46-48 | a List holding exactly the given children |
| Ast.PushBack | src/node.cpp:50-53 | one child appended at the end; the kind and earlier children are unchanged |
| Ast.PushAll | src/node.cpp:50-53 | pushing children one at a time appends them in order |
| Ast.PrintLeaf | src/node.cpp:59-96 | a string-payload node prints as "<Kind>:" + payload |
| Ast.PrintEmptyList | src/node.cpp:83-88 | an empty list prints "( )" |
| Ast.PrintPushBack | src/node.cpp:83-88 | appending a child inserts its text and one " " just before the ")" |
| Ast.PrintListBrackets | src/node.cpp:83-88 | every printed List starts with "( " and ends with ")" |
| ErrorContext.Split | src/main.cpp:8-22 | splitString always yields at least one piece |
| ErrorContext.SplitCount | src/main.cpp:8-22 | there is one more piece than there are separators |
| ErrorContext.SplitPiecesHaveNoSep | src/main.cpp:8-22 | no piece contains the separator |
| ErrorContext.JoinSplit | src/main.cpp:8-22 | joining the pieces with the separator gives back the text |
| ErrorContext.SplitJoin | src/main.cpp:8-22 | splitting the join of separator-free pieces gives back the pieces |
| ErrorContext.SplitString | src/main.cpp:8-22 | the loop appending to `output.back()` computes Split |
| ErrorContext.ContextRows | src/main.cpp:34-53 | the loop writes one row per line of the window, plus one marker row when the error line is in it (row count) |
| ErrorContext.WriteMarker | src/main.cpp:41-51 | the marker is the gutter, `col_start` spaces, then one caret for each column in `[col_start, col_end]` |
| ErrorContext.WriteRow | src/main.cpp:36-52 | a numbered source row, followed by the marker row only for the error line |
| ErrorContext.WriteRows | src/main.cpp:34-53 | the loop over `[first, last)` writes exactly the context rows |
| ErrorContext.MakeContext | src/main.cpp:24-54 | the output is the rendering of the window around `line`, with the caret count of the inclusive loop |
| ErrorContext.WindowBounds | src/main.cpp:31-32 | the window contains the error line, up to 3 lines before it and up to 2 after it, clipped to the text |
| ErrorContext.ContextRowsBefore | src/main.cpp:34-53 | the lines up to and including the error line come first, in order |
| ErrorContext.ContextRowsMarker | src/main.cpp:39-52 | the marker row comes directly after the error line |
| ErrorContext.ContextRowsAfter | src/main.cpp:34-53 | the lines after the error line follow the marker row, in order |
| ErrorContext.MarkerRowLayout | src/main.cpp:41-51 | the marker row is the blank gutter with its bar, then `col_start` spaces, then exactly the carets and a newline |
| ErrorContext.LineRowLayout | src/main.cpp:37 | a row is the 1-based number right-aligned in 5 columns, then the bar separator, the line and a newline |
| ErrorContext.SourceCaretCount | src/main.cpp:30-49 | one caret more than the token length when the token fits on the line; fewer when clipped; none past the line's end |
| ErrorContext.EscapeSymbol | src/main.cpp:82-93 | '\n', '\r', '\t', '\v' and ' ' map to quoted escapes, NUL to "EOF", any other byte to itself |
| ErrorContext.EscapeSymbolInjective | src/main.cpp:82-93 | different symbols are never shown the same way |
| LegacyErrorContext.WriteMarker | legacy_parser/src/Compiler/AST/makeErrorCtx.cpp:27-37 | the marker has one caret for each column in `[col_start, col_end)` |
| LegacyErrorContext.WriteRow | legacy_parser/src/Compiler/AST/makeErrorCtx.cpp:22-38 | a numbered source row, followed by the marker row only for the error line |
| LegacyErrorContext.WriteRows | legacy_parser/src/Compiler/AST/makeErrorCtx.cpp:20-39 | the loop writes exactly the context rows of the window |
| LegacyErrorContext.MakeContext | legacy_parser/src/Compiler/AST/makeErrorCtx.cpp:12-40 | the same window and row format as src/main.cpp, with the caret count of the exclusive loop |
| LegacyErrorContext.MakeTokenBasedErrorCtx | legacy_parser/src/Compiler/AST/makeErrorCtx.cpp:60-67 | "On line " + (line+1) + ":" + col + "\n", then the context rendered with the token's size |
| LegacyErrorContext.LegacyCaretCount | legacy_parser/src/Compiler/AST/makeErrorCtx.cpp:16-35 | exactly `col_end - col_start` carets: the token size when it fits, fewer when clipped, none at or past the line's end |
| LegacyErrorContext.CaretsDifferByOne | legacy_parser/src/Compiler/AST/makeErrorCtx.cpp:34-35 | src/main.cpp draws one caret more than the legacy renderer when the column is on the line; both draw none past its end |
| LegacyErrorContext.HeaderLayout | legacy_parser/src/Compiler/AST/makeErrorCtx.cpp:63 | the header is "On line ", the 1-based line, ':', the column and a newline |
| Syntax.SpaceEnd | src/baseparser.cpp:85-97 | `space()` stops after the maximal white-space run, never before its start and never past the buffer |
| Syntax.CommentEnd | src/parser.cpp:67-77 | a comment ends strictly after its '#' and within the buffer |
| Syntax.AfterComments | src/parser.cpp:82-86 | the comment loop of newlineOrComment never moves backwards or past the buffer |
| Syntax.TriviaEnd | src/parser.cpp:79-89 | skipping white space and comments never moves backwards or past the buffer |
| Syntax.AfterCommentsStops | src/parser.cpp:82-86 | once no white space starts at the cursor, the comment loop stops where neither white space nor '#' follows |
| Syntax.TriviaEndStops | src/parser.cpp:79-89 | after skipping, neither white space nor a comment starts at the cursor |
| Syntax.TriviaEndIdempotent | src/parser.cpp:79-89 | skipping trivia twice is skipping it once |
| Syntax.NameAt | src/baseparser.cpp:144-155 | the name `name()` reads ends inside the buffer |
| Syntax.PackageAt | src/baseparser.cpp:157-166 | the package name is non-empty iff an alphanumeric starts there, and ends inside the buffer |
| Syntax.MinusLength | src/baseparser.cpp:139-142 | `signedNumber` consumes at most one '-', inside the buffer |
| Syntax.NumeralTextIsSigned | src/parser.cpp:502-507 | the text the number atom passes to `stoi` is an optional '-' and one or more digits |
| Syntax.StringBodyHasNoQuote | src/parser.cpp:509-520 | the body of a string literal contains no '"' |
| Syntax.NodesAreListsAtomsAreNot | src/parser.cpp:583-591 | every node result is a List and no atom is, so the two branches of nodeOrValue never overlap |
| Syntax.MacroShapes | src/parser.cpp:404-436 | `[macro, name, body]` and `[macro, name, args, body]` are both macro shapes |
| Scan.Consumed | src/baseparser.cpp:57-71 | `n` accepts append exactly `n` characters |
| Scan.ConsumedAt | src/baseparser.cpp:57-71 | character `i` of the appended text is the buffer's character at offset `count - 1 + i` |
| Scan.ConsumedSplit | src/baseparser.cpp:57-71 | consuming `m` then `n` characters appends the two texts in order |
| Scan.ConsumedSnoc | src/baseparser.cpp:57-71 | one more accept appends the symbol it accepted |
| Scan.ConsumedIsSlice | src/baseparser.cpp:57-71 | the appended text is the slice of the buffer between the two positions |
| Reference.ErrorAt | src/baseparser.hpp:42-45 | an exception carries the message, the expected text and the row, column and symbol of its position |
| Reference.NextTokenError | src/parser.cpp:613-618 | throws at the end of the run of non-inline-space bytes, whose text becomes the error's expression |
| Reference.ExpectError | src/baseparser.cpp:73-83 | the error is "Expected '<k>'" with the current symbol as its expression |
| Reference.Closing | src/baseparser.cpp:73-83 | `expect(k)` yields the node with the cursor after `k` iff `k` is the current symbol, else throws ExpectError where the cursor is |
| Reference.NumberAt | src/parser.cpp:502-507 | declines iff no signed numeral is there and never throws; a result is a Number atom whose text is an optional '-' and digits |
| Reference.StringAt | src/parser.cpp:509-520 | declines iff no '"' is there; a result is the String of the body, ending after the closing '"'; throws iff the input does not close the string |
| Reference.FieldHead | src/parser.cpp:524-525 | the field after its first name is a Field holding that Symbol alone |
| Reference.FieldAdvance | src/parser.cpp:540 | pushing a further non-empty Symbol keeps a field and its first name |
| Reference.FieldLoop | src/parser.cpp:527-542 | declines iff only one name was read and no '.' follows the white space; a result is a Field atom with the same first name |
| Reference.DotTurnAt | src/parser.cpp:536-540 | stops exactly where no '.' is; after a '.', the next name becomes an entry of the reader's kind, or the message is thrown |
| Reference.DottedAt | src/parser.cpp:538-540 | the name after a '.' is a non-empty entry of the reader's kind, or the message is thrown |
| Reference.ReadAt | src/parser.cpp:245 | the name reader of fields reads exactly `name()`'s text, inside the buffer |
| Reference.FieldAt | src/parser.cpp:522-545 | declines iff no name is there or no '.' follows the name and its white space; a result is a Field atom whose first child is Symbol(name) |
| Reference.SymbolAt | src/parser.cpp:547-552 | declines iff no name is there, otherwise yields Symbol(name) right after it; never throws |
| Reference.AtomKindAt | src/parser.cpp:500-553 | one entry of the atom table, with its kind's shape |
| Reference.FirstAtom | src/parser.cpp:555-564 | the remaining table yields only atom shapes inside the buffer |
| Reference.AtomAt | src/parser.cpp:498-567 | `atom()` yields only atom shapes inside the buffer |
| Reference.ValueAt | src/parser.cpp:583-591 | `nodeOrValue()` yields only values (atoms, or nodes whose value positions hold values) |
| Reference.RequiredValueAt | src/parser.cpp:125-128 | never declines: a value, or the error of `errorWithNextToken(what)` |
| Reference.ValueThenTriviaAt | src/parser.cpp:163-168 | a required value, then trivia; never declines |
| Reference.OptionalValueAt | src/parser.cpp:177-181 | an optional value and the trivia after it |
| Reference.NodeAt | src/parser.cpp:91-107 | `node()` yields only the shape of one of its ten alternatives, inside the buffer |
| Reference.FirstAlt | src/parser.cpp:96-104 | the remaining alternatives yield only node shapes |
| Reference.AltAt | src/parser.cpp:8-39 | one entry of `m_node_parsers`, with that alternative's shape |
| Reference.WrappedAt | src/parser.cpp:593-611 | declines iff the prefix is absent or the next name is not one of the inner production's keywords |
| Reference.InnerAt | src/parser.cpp:597-610 | declines iff the next name is not one of the keywords; a result has the inner production's shape |
| Reference.SuffixAt | src/parser.cpp:603-607 | the node, ending just after `suffix`, or "Missing '<suffix>' after node" |
| Reference.FormAt | src/parser.cpp:599 | the inner production named by a `wrapped` entry declines iff its keyword is not the next name |
| Reference.LetMutSetAt | src/parser.cpp:109-131 | declines iff the next name is not let, mut or set; a result is [Keyword, Symbol, value] |
| Reference.LetMutSetBodyAt | src/parser.cpp:116-130 | after the keyword, never declines; a result has the letMutSet shape |
| Reference.BoundValueAt | src/parser.cpp:121-130 | the required value after the symbol completes the letMutSet shape |
| Reference.FunctionAt | src/parser.cpp:331-390 | declines iff the next name is not "fun"; a result is [Keyword fun, parameters, value] |
| Reference.FunctionBodyAt | src/parser.cpp:336-375 | after `fun`, never declines; a result has the function shape and ends past the keyword |
| Reference.FunctionValueAt | src/parser.cpp:377-389 | after the parameters, never declines; a result has the function shape |
| Reference.ConditionAt | src/parser.cpp:152-184 | declines iff the next name is not "if"; a result is [Keyword if, cond, then] or [Keyword if, cond, then, else], each a value |
| Reference.BranchesAt | src/parser.cpp:168-183 | after the condition, never declines; a result has the condition shape |
| Reference.LoopAt | src/parser.cpp:186-210 | declines iff the next name is not "while"; a result is [Keyword while, cond, body], both values |
| Reference.MacroAt | src/parser.cpp:392-437 | declines iff the next name is not "macro"; a result has the macro shape |
| Reference.MacroBodyAt | src/parser.cpp:397-406 | after `macro`, never declines; a result has the macro shape and ends past the keyword |
| Reference.MacroTailAt | src/parser.cpp:408-436 | a result starts with [Keyword macro, Symbol name] for the name read |
| Reference.MacroValueAt | src/parser.cpp:431-436 | never declines; a result starts with [Keyword macro, Symbol name] and has the macro shape |
| Reference.BodyAt | src/parser.cpp:315-328 | never declines; a result is a List that keeps the given children as its prefix and ends past `c` |
| Reference.ValuesAt | src/parser.cpp:315-324 | the `while (nodeOrValue())` loop never declines and keeps the given children as a prefix |
| Reference.BlockOpenAt | src/parser.cpp:299-310 | no opening iff there is neither "(begin" nor "{"; the closer is ')' exactly after '(' |
| Reference.BlockAt | src/parser.cpp:297-329 | declines iff there is no opening; a result has the block shape [Keyword begin, values...] |
| Reference.CallAt | src/parser.cpp:439-471 | a result is [callee, values...], where the callee is a Symbol, a Field or a node |
| Reference.CalleeAt | src/parser.cpp:445-451 | a result is a Symbol or Field atom or a node |
| Reference.ListAt | src/parser.cpp:473-496 | declines iff there is no '['; a result is [Symbol list, values...] |
| Reference.ParamTurnAt | src/parser.cpp:346-374 | an entry is a Capture, or a Symbol only while no capture was seen; the only error is the capture-order message, naming the offending name, where it starts |
| Reference.ListNameAt | src/parser.cpp:360-373 | stops iff no name is there; otherwise the leaf holding that name, or the capture-order error pointing at it |
| Reference.ParamsAt | src/parser.cpp:344-375 | the parameters keep the given ones, Symbols before Captures; an error is the capture-order message |
| Reference.ParamAdvance | src/parser.cpp:355-372 | pushing a Capture, or a Symbol before any capture, keeps a parameter list |
| Reference.ArgumentsAt | src/parser.cpp:413-423 | the loop keeps the given names, reads only Symbols, and stops where no name is |
| Reference.ArgumentAdvance | src/parser.cpp:421 | pushing a non-empty Symbol keeps a symbol list |
| Reference.MacroArgsAt | src/parser.cpp:408-429 | declines iff there is no '('; a result is a list of Symbols |
| Reference.ArgumentListAt | src/parser.cpp:410-426 | never declines; a result is a list of Symbols |
| Reference.ArgumentsCloseAt | src/parser.cpp:425-426 | the names stay as they are; a missing ')' throws where the cursor is |
| Reference.DelAt | src/parser.cpp:133-150 | declines iff the next name is not "del"; a result is [Keyword del, Symbol] |
| Reference.ImportOpenAt | src/parser.cpp:218-225 | no opening iff there is no '(' or the next name is not "import" |
| Reference.ImportAt | src/parser.cpp:212-295 | declines iff there is no opening; a result is [Keyword import, path, "*" or names] |
| Reference.ImportBodyAt | src/parser.cpp:227-295 | after the opening, never declines; a result has the import shape |
| Reference.ImportPathAt | src/parser.cpp:230-262 | the first String is the package name read; no '.' follows the path; a missing name throws "Import expected a package name" |
| Reference.PathAt | src/parser.cpp:239-249 | more package names keep the first one, and the path ends where no '.' is |
| Reference.PathAdvance | src/parser.cpp:248 | pushing a non-empty String keeps a path and its first name |
| Reference.ImportTailAt | src/parser.cpp:250-294 | after the path, never declines; a result has the import shape |
| Reference.ImportListAt | src/parser.cpp:289-294 | the imported names, then ')', complete the import shape |
| Reference.ImportNamesAt | src/parser.cpp:265-287 | never declines; a result is a list of Symbols |
| Reference.StarEnding | src/parser.cpp:275-278 | a name ending in ":*" ends with the input characters ':' and '*' |
| Reference.ImportSymbolAt | src/parser.cpp:269-282 | declines iff there is no ':'; a result is a non-empty Symbol; the star-pattern error points at ":*" in the input |
| Reference.ImportedNameAt | src/parser.cpp:271-281 | never declines; a result is a non-empty Symbol; the star-pattern error points at ":*" in the input |
| Reference.SymbolsAt | src/parser.cpp:267-286 | the loop keeps the given names and adds Symbols only |
| Reference.StatementAt | src/parser.cpp:44-50 | no statement iff the input ends after the trivia; otherwise `node()` at that point |
| Reference.ProgramAt | src/parser.cpp:42-53 | the appended nodes all have node shapes |
| Reference.ProgramStep | src/parser.cpp:50-52 | a statement that yields a node puts that node in front of the nodes parsed after it |
| Reference.DivergesAtFixedPoint | src/parser.cpp:44-50 | a program that diverges reaches a position, not at the end of input and with no trivia left, where `node()` declines, so the loop would repeat that round forever |
| Choice.FirstAtomSkips | src/parser.cpp:555-564 | past table entries that all decline, the table answers as from the first that does not |
| Choice.FirstAtomDeclines | src/parser.cpp:555-566 | the remaining table declines iff each of its entries declines |
| Choice.AtomIsFirstAnswer | src/parser.cpp:555-564 | `atom()` returns the first entry, in table order, that does not decline |
| Choice.AtomDeclinesIffAll | src/parser.cpp:555-566 | `atom()` declines iff every entry declines |
| Choice.AtomPriority | src/parser.cpp:500-566 | number, then string, then field, then symbol: "123" is a Number, never a Symbol |
| Choice.AtomDeclinesIffNoAtom | src/parser.cpp:498-566 | `atom()` declines iff no numeral, no '"' and no name starts there |
| Choice.FirstAltSkips | src/parser.cpp:96-104 | past alternatives that all decline, `node()`'s table answers as from the first that does not |
| Choice.FirstAltDeclines | src/parser.cpp:96-106 | the remaining alternatives decline iff each of them does |
| Choice.NodeIsFirstAnswer | src/parser.cpp:91-107 | `node()` returns the first alternative, in `m_node_parsers` order, that does not decline |
| Choice.NodeDeclinesIffAll | src/parser.cpp:91-107 | `node()` declines iff all ten alternatives decline |
| Choice.ValueIsAtomFirst | src/parser.cpp:583-591 | an atom at the position is the result; otherwise `node()`'s; declines iff no atom and no alternative applies |
| Choice.CalleeOfName | src/parser.cpp:445-447 | a name that is not a numeral gives the callee as `atom()`'s Symbol or Field (or its error) |
| Choice.CalleeWithoutAtom | src/parser.cpp:448-449 | with no atom there, the callee is `node()` at that point |
| Choice.CalleeAfterLiteral | src/parser.cpp:445-449 | a number or string is consumed and dropped by anyAtomOf, and the callee is `node()` after it |
| Grammar.Parser.constructor | src/parser.cpp:5-40 | the cursor is at the first byte, the counter is 0 and `m_ast` is an empty List |
| Grammar.Parser.Create | src/parser.cpp:5-7 | an empty buffer throws the base constructor's error |
| Grammar.Parser.Comment | src/parser.cpp:67-77 | true iff a '#' was consumed; then it ends at CommentEnd |
| Grammar.Parser.NewlineOrComment | src/parser.cpp:79-89 | ends at TriviaEnd; true iff anything was consumed |
| Grammar.Parser.ErrorWithNextToken | src/parser.cpp:613-618 | throws exactly NextTokenError, with the cursor where it leaves it |
| Grammar.Parser.NumberLiteral | src/parser.cpp:502-507 | computes NumberAt: result and cursor |
| Grammar.Parser.StringLiteral | src/parser.cpp:509-520 | computes StringAt |
| Grammar.Parser.FieldLiteral | src/parser.cpp:522-545 | computes FieldAt: declining iff no name or no '.', the first child the name read, the rest the dotted names |
| Grammar.Parser.FieldRest | src/parser.cpp:527-542 | the loop after the first name computes FieldLoop |
| Grammar.Parser.FieldTurn | src/parser.cpp:529-540 | `space()` then one DotTurnAt with the field message |
| Grammar.Parser.DotTurn | src/parser.cpp:242-249 | computes DotTurnAt, leaving the cursor at its position |
| Grammar.Parser.Dotted | src/parser.cpp:244-248 | computes DottedAt |
| Grammar.Parser.SymbolLiteral | src/parser.cpp:547-552 | computes SymbolAt |
| Grammar.Parser.TryAtom | src/parser.cpp:500-553 | computes AtomKindAt for each entry: Number, String, Field and Symbol with their decline conditions and payloads |
| Grammar.Parser.Atom | src/parser.cpp:498-567 | computes AtomAt (ordered choice, see Choice.AtomPriority); declining restores the cursor and counts 4 backtracks |
| Grammar.Parser.AnyAtomOf | src/parser.cpp:569-581 | returns `atom()`'s node iff its kind is allowed; an atom of another kind is dropped with its text consumed; errors pass through |
| Grammar.Parser.NodeOrValue | src/parser.cpp:583-591 | computes ValueAt (atom first, see Choice.ValueIsAtomFirst); declining leaves the cursor unchanged |
| Grammar.Parser.RequiredValue | src/parser.cpp:125-128 | computes RequiredValueAt |
| Grammar.Parser.Values | src/parser.cpp:315-324 | the loop computes ValuesAt: the items are the values read, in order |
| Grammar.Parser.ParseNode | src/parser.cpp:91-107 | computes NodeAt (first alternative that answers, see Choice.NodeIsFirstAnswer); declining leaves the cursor unchanged |
| Grammar.Parser.TryAlternative | src/parser.cpp:8-39 | computes AltAt for each entry of `m_node_parsers` |
| Grammar.Parser.Wrapped | src/parser.cpp:593-611 | computes WrappedAt |
| Grammar.Parser.Inner | src/parser.cpp:597-610 | computes InnerAt |
| Grammar.Parser.TriviaThenSuffix | src/parser.cpp:603-607 | computes SuffixAt: the suffix, or "Missing '<suffix>' after node" |
| Grammar.Parser.RunInner | src/parser.cpp:599 | computes FormAt for the inner production a `wrapped` entry names |
| Grammar.Parser.ReadName | src/baseparser.cpp:144-155 | reads exactly NameAt and moves past it |
| Grammar.Parser.ReadPackage | src/baseparser.cpp:157-166 | reads exactly PackageAt and moves past it |
| Grammar.Parser.ReadWith | src/parser.cpp:245 | reads exactly ReadAt for the reader |
| Grammar.Parser.KeywordThenTrivia | src/parser.cpp:112-114 | succeeds iff the next name is one of the words, returns that name and skips the trivia after it |
| Grammar.Parser.WordThenTrivia | src/parser.cpp:136-139 | succeeds iff the next name is the word, then skips the trivia after it |
| Grammar.Parser.OpenThenTrivia | src/parser.cpp:595-597 | consumes the bracket and the trivia after it iff the bracket is there, or nothing |
| Grammar.Parser.TriviaThenClose | src/parser.cpp:326-327 | trivia, then Closing: the bracket or ExpectError |
| Grammar.Parser.CloseThenTrivia | src/parser.cpp:377-378 | succeeds iff the bracket is the current symbol, then skips trivia; otherwise ExpectError with the cursor unchanged |
| Grammar.Parser.NeededSymbol | src/parser.cpp:116-118 | returns the non-empty next name, or throws "<keyword> needs a symbol" at the next token |
| Grammar.Parser.SymbolThenTrivia | src/parser.cpp:399-402 | the next name and the trivia after it, or "<keyword> needs a symbol" |
| Grammar.Parser.ErrorAtLastName | src/parser.cpp:365-369 | steps back over the offending text and reports it at that position, counting one backtrack |
| Grammar.Parser.LetMutSet | src/parser.cpp:109-131 | computes LetMutSetAt: [Keyword k, Symbol s, value] for the keyword and the name read |
| Grammar.Parser.LetMutSetBody | src/parser.cpp:116-130 | computes LetMutSetBodyAt |
| Grammar.Parser.BoundValue | src/parser.cpp:121-130 | computes BoundValueAt |
| Grammar.Parser.Del | src/parser.cpp:133-150 | computes DelAt: [Keyword del, Symbol s] for the name read |
| Grammar.Parser.Condition | src/parser.cpp:152-184 | computes ConditionAt |
| Grammar.Parser.Branches | src/parser.cpp:168-183 | computes BranchesAt |
| Grammar.Parser.Loop | src/parser.cpp:186-210 | computes LoopAt |
| Grammar.Parser.ValueThenTrivia | src/parser.cpp:163-168 | computes ValueThenTriviaAt |
| Grammar.Parser.OptionalValueThenTrivia | src/parser.cpp:177-181 | computes OptionalValueAt; when absent nothing is consumed |
| Grammar.Parser.Parameter | src/parser.cpp:346-374 | computes ParamTurnAt: the Capture or Symbol holding the name read |
| Grammar.Parser.ListName | src/parser.cpp:360-373 | computes ListNameAt |
| Grammar.Parser.FunctionParameters | src/parser.cpp:344-375 | computes ParamsAt: the names read, in order |
| Grammar.Parser.Function | src/parser.cpp:331-390 | computes FunctionAt |
| Grammar.Parser.FunctionBody | src/parser.cpp:336-375 | computes FunctionBodyAt |
| Grammar.Parser.FunctionValue | src/parser.cpp:377-389 | computes FunctionValueAt |
| Grammar.Parser.MacroArguments | src/parser.cpp:408-429 | computes MacroArgsAt: the Symbols are the names read; absent iff no '(' is there, with nothing consumed |
| Grammar.Parser.ArgumentList | src/parser.cpp:410-426 | computes ArgumentListAt |
| Grammar.Parser.CloseArguments | src/parser.cpp:425-426 | computes ArgumentsCloseAt |
| Grammar.Parser.MacroNames | src/parser.cpp:413-423 | the loop computes ArgumentsAt: the names and where they end |
| Grammar.Parser.Macro | src/parser.cpp:392-437 | computes MacroAt |
| Grammar.Parser.MacroBody | src/parser.cpp:397-406 | computes MacroBodyAt |
| Grammar.Parser.MacroTail | src/parser.cpp:408-436 | computes MacroTailAt |
| Grammar.Parser.MacroValue | src/parser.cpp:431-436 | computes MacroValueAt |
| Grammar.Parser.ImportPath | src/parser.cpp:230-262 | computes ImportPathAt: the Strings are the package names read |
| Grammar.Parser.PackagePath | src/parser.cpp:239-249 | the loop computes PathAt |
| Grammar.Parser.StarTail | src/parser.cpp:250-259 | `:*` is recognised iff ':' and '*' follow; a lone ':' stays consumed; after `:*`, white space then ')' or ExpectError |
| Grammar.Parser.StarClose | src/parser.cpp:252-253 | white space, then ')' or ExpectError where the cursor is |
| Grammar.Parser.ImportSymbol | src/parser.cpp:269-282 | computes ImportSymbolAt |
| Grammar.Parser.ImportedName | src/parser.cpp:271-281 | computes ImportedNameAt: the Symbol is the name after ':' |
| Grammar.Parser.ImportSymbols | src/parser.cpp:267-286 | the loop computes SymbolsAt: the names read, in order |
| Grammar.Parser.ImportNames | src/parser.cpp:265-287 | computes ImportNamesAt |
| Grammar.Parser.Import | src/parser.cpp:212-295 | computes ImportAt |
| Grammar.Parser.ImportOpening | src/parser.cpp:218-225 | succeeds iff ImportOpenAt finds "(import", and ends where it says |
| Grammar.Parser.ImportBody | src/parser.cpp:227-295 | computes ImportBodyAt |
| Grammar.Parser.ImportTail | src/parser.cpp:250-294 | computes ImportTailAt |
| Grammar.Parser.ImportList | src/parser.cpp:289-294 | computes ImportListAt |
| Grammar.Parser.BlockOpening | src/parser.cpp:299-310 | succeeds iff BlockOpenAt finds "(begin" or "{", returns the closer and ends where it says |
| Grammar.Parser.Block | src/parser.cpp:297-329 | computes BlockAt |
| Grammar.Parser.Body | src/parser.cpp:315-328 | computes BodyAt |
| Grammar.Parser.FunctionCall | src/parser.cpp:439-471 | computes CallAt |
| Grammar.Parser.Callee | src/parser.cpp:445-451 | computes CalleeAt (atom first, see Choice.CalleeOfName) |
| Grammar.Parser.ListLiteral | src/parser.cpp:473-496 | computes ListAt |
| Grammar.Parser.Append | src/parser.cpp:52 | `m_ast.push_back`: one node appended, the earlier ones kept |
| Grammar.Parser.Statement | src/parser.cpp:46-50 | computes StatementAt: the end of input after trivia, or `node()` there |
| Grammar.Parser.Parse | src/parser.cpp:42-53 | appends exactly ProgramAt's nodes, in input order, after the earlier ones, and ends with ProgramAt's status |

## Left out

- UTF-8 decoding and locale-dependent ctype behaviour. The code works on bytes,
  and ctype is modelled by the ASCII classes.
- `IsSymbol` comes from predicates.hpp, which is not part of this model. Its
  character class is a parameter, the set `symbols`. Its display name "symbol"
  is a stand-in; `name()` only accepts with it, so the name never reaches a
  message.
- Number payloads are `double` in the code and integers here. `std::stoi`
  overflow is not modelled, and neither is the `Number` case of the
  serialiser (`Ast.Print` requires a tree without Number nodes).
- `Node` is a value. `push_back` in place on a local node becomes a function
  that returns the extended node, so aliasing of the vector is not captured.
- The `main()` functions, file reading, `std::cout` printing and the `m_debug`
  dump in `parse()`. Only the symbol-escaping switch of src/main.cpp is modelled,
  as a function.
- `makeNodeBasedErrorCtx` is left out: it reads a file and uses a Node with a
  file name, line and column that is not part of this model. `Utils::splitString`
  is not part of this model either; the legacy renderer uses the same `Split` as
  src/main.cpp.
- The benchmark harness, src/utils.hpp `isDouble`, src/parser.hpp
  (declarations only) and the root-level parser.cpp, node.*, main.cpp stub.
  The two benchmark counters are readable fields: `Parser.ast` and
  `Parser.cur.backtrackCount`.
- The legacy cursor stores `m_sym` as an `int`. Bytes of 0x80 and above
  sign-extend in the source; the model reads every byte as non-negative.
- Grammar.Parser.Parse: the source loops forever when `node()` declines at a
  position that is not the end of input. The model stops there with `Diverges`
  and does not count the repeated backtracks.
- Cursor.BaseParser.Backtrack: requires `1 <= n`. Offset 0 would read `m_in[-1]`,
  and the parser never passes it.
- Cursor.BaseParser.Expect: requires that a predicate accepting NUL is not
  matched at offset size+1, where the source would read past the buffer.
- Combinators.ParserCombinators.Accept: has no end-of-input guard, so it
  requires `m_count <= size` before a successful accept. Expect has the same
  requirement.
- Combinators.ParserCombinators.AnyUntil: requires that a delimiter byte
  (or the terminator, when the delimiter matches NUL) lies ahead. Otherwise the
  source reads past the buffer. AcceptWhile and AcceptMany have the same
  requirement.
