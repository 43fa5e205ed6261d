# drgns front end, modelled in Dafny

drgns (dragon-script) is a small scripting language written in Rust. Its
repository holds several overlapping snapshots of the front end. This project
models each snapshot against its own data structures and proves what each one
promises:

- the character arena `STRING_ARENA`, its spans and its window `Reader`
  (`arena.rs`), and the `Lexer` that drives that reader one lexeme per call
  (`lexer.rs`);
- the later `source/` snapshot: `SourceArena` with its bounded `Reader`,
  `SourceView` span arithmetic, and the two-index `Cursor` reader over a
  `Source`;
- the speculative iterators of `lookahead.rs` (`Lookahead` and the `Cursor`
  reference `VecCursor` of its unit test);
- the parser's `match_*` functions over an itertools `MultiPeek`, and the
  expression tree's `walk` and `Display`;
- the `i64` values and the stack evaluator;
- the line interner with its line/column spans.

Modules, one per source file or snapshot:

- `Arena` (`arena.rs`), with `Utf8` for Rust's byte lengths and `Data` for
  `PrimitiveValue`.
- `Lexemes`: what one call of the lexer classifies, as functions of the arena
  text, plus the lemmas about tokenising.
- `Lexer`: the lexer class itself.
- `Source`: `source/arena.rs` and `source/view.rs`.
- `SourceReader`: `source/reader.rs`.
- `Lookahead`, `Parser`, `Ast`, `Values`, `Eval` and `Interner`: the files of
  the same names.

How things are represented:

- Objects whose fields the Rust code updates in place are classes with
  `modifies` clauses:
  - the arenas, the readers, the lexer, the lookahead iterators;
  - the parser's peek cursor, the evaluator's stack, the line store.
- Pure code is functions with lemmas: spans, the lexeme classifier, the tree
  walk and display, value arithmetic, line splitting and slicing.
- Panics are preconditions:
  - `unwrap` of a dead weak reference;
  - `i64` overflow in a debug build;
  - division by zero, which hits a `todo!`;
  - the fatal `fatal_unreachable` crash, which is an explicit `Fatal` step
    of the lexer.
- `Rc`/`Weak` ownership is an `alive` flag on the owner.
- An iterator over a collection is a position in a sequence.

## Model

| member | source | states |
|---|---|---|
| Arena.Span.Text | drgns/src/arena.rs:17-23 | `to_string` yields, in order, the arena characters from `start` on, at most `length` of them, and fewer when the arena ends first |
| Arena.Span.End | drgns/src/arena.rs:25-27 | `end` is the first index past the window: at least `start`, and exactly `length` past it |
| Arena.TextInBounds | drgns/src/arena.rs:17-23 | a span lying inside the arena spells exactly `chars[start..start+length]` |
| Arena.TextAdjacent | drgns/src/arena.rs:17-27 | two adjacent spans together spell the concatenation of their texts |
| Arena.Span.GetBack | drgns/src/arena.rs:38-43 | `get_back(i)` demands `i <= start + length` (the `usize` subtraction does not underflow), `start + length - i < length` (so the span is non-empty) and that the span ends inside the arena (else the indexing panics); it returns the span's last character whatever `i` is |
| Arena.CharArena.Intern | drgns/src/arena.rs:54-67 | `intern` appends exactly the characters of `src` and keeps what was there; the span starts at the old arena length, is as many characters long as `src` and spells `src` |
| Arena.InternSpanAsWrittenIffAscii | drgns/src/arena.rs:55-56 | the span length `src.len()` (bytes) equals the number of characters pushed exactly when `src` is ASCII |
| Arena.InternAsWrittenOverruns | drgns/src/arena.rs:55-66 | interning `"é"` into an empty arena returns span `(0, 2)` over a one-character arena |
| Utf8.ByteLenIsCharCount | drgns/src/arena.rs:56 | a string's UTF-8 length equals its character count exactly when it is ASCII |
| Arena.Reader.constructor | drgns/src/arena.rs:80-88 | `Reader::new` starts with the empty window `(0, 0)` |
| Arena.Reader.HeadIdx | drgns/src/arena.rs:126-128 | the head index is the window's end: the window covers exactly `[start, head)` |
| Arena.Reader.IsAtEnd | drgns/src/arena.rs:90-92 | (corrected) the reader is not at its end exactly when a character lies at the head index |
| Arena.Reader.Peek | drgns/src/arena.rs:95-101 | `peek` is `Some(arena[head])` exactly when the head index is inside the arena, else `None` (end test on the head index) |
| Arena.IsAtEndAsWrittenLetsPeekPastEnd | drgns/src/arena.rs:90-92 | the as-written end test on `start` says "not at end" for window `(0, 1)` over a one-character arena, whose head is already past the end |
| Arena.Reader.Peek2 | drgns/src/arena.rs:104-110 | `peek2` is `Some(arena[head + 1])` exactly when `head + 1 < len`, else `None` |
| Arena.Reader.AdvanceHead | drgns/src/arena.rs:112-116 | returns what `peek` returned; on `Some` the window keeps its start and grows by one, on `None` nothing changes |
| Arena.Reader.AdvanceTail | drgns/src/arena.rs:118-123 | returns the window and leaves an empty window starting at its end, so successive windows are contiguous |
| Lexemes.KeywordLookup | drgns/src/lexer.rs:123-166 | a word is found exactly when it is in the `KEYWORDS` table, with the table's token type |
| Lexemes.Longest | drgns/src/lexer.rs:213-401 | the chosen operator is in the family and a prefix of the input, and no operator of the family that is a prefix is longer |
| Lexemes.LongestOperator | drgns/src/lexer.rs:213-401 | at an operator character the lexeme is the longest operator of that character's family that the input starts with |
| Lexemes.FamilyShape | drgns/src/lexer.rs:213-401 | every operator of a family begins with the family's character, and the lone character is always a member |
| Lexemes.OperatorNotSingle | drgns/src/lexer.rs:460-484 | no operator character is also a single-character token, so the dispatch in `next` is unambiguous |
| Lexemes.Scan | drgns/src/lexer.rs:455-498 | the lexeme starting at an index is at least one character long and fits in the text, or the character is one no rule accepts |
| Lexemes.ScanOfOperator | drgns/src/lexer.rs:474-487 | outside a `//` comment an operator character scans as the longest operator of its family |
| Lexemes.ScanOfDigit | drgns/src/lexer.rs:495 | a digit starts a numeral and nothing else |
| Lexemes.DigitRunShape | drgns/src/lexer.rs:407-412 | the digit run is maximal: all digits or `_`, and not followed by one |
| Lexemes.LineRunShape | drgns/src/lexer.rs:280-282 | the comment run holds no newline and stops at a newline or at the end |
| Lexemes.CommentRunsToNewline | drgns/src/lexer.rs:279-284 | `//` yields `Ignore` and consumes up to, not including, the next `'\n'` or the end of input |
| Lexemes.NumeralKind | drgns/src/lexer.rs:403-426 | a numeral is `FloatLit` exactly when its digit run is followed by `'.'` and a digit or `_`, else `IntLit` |
| Lexemes.IntegerNumeral | drgns/src/lexer.rs:409-447 | an integer numeral is the whole maximal digit run (a following `'.'` is left unconsumed) and carries its `u64` value, or 0 when that does not parse |
| Lexemes.FloatNumeral | drgns/src/lexer.rs:414-422 | a float numeral runs past the `'.'` to the end of the digit run after it |
| Lexemes.RemoveUnderscores | drgns/src/lexer.rs:441 | `replace("_", "")` leaves no `_` and never lengthens the string |
| Lexemes.RemoveUnderscoresAppend | drgns/src/lexer.rs:441 | removing separators distributes over concatenation |
| Lexemes.ParseU64 | drgns/src/lexer.rs:437-446 | a value that parses fits in `u64` |
| Lexemes.SeparatorIgnored | drgns/src/lexer.rs:437-446 | inserting a `_` anywhere in a numeral does not change what it parses to |
| Lexemes.LexFromContiguous | drgns/src/lexer.rs:499-503 | every lexeme is non-empty and starts where the previous one ended |
| Lexemes.SpelledContiguous | drgns/src/lexer.rs:499-503 | contiguous lexemes spell the text between their outer ends |
| Lexemes.LexFromStops | drgns/src/lexer.rs:456-497 | lexing stops only at the end of input or at a character no rule accepts |
| Lexemes.LexFromTiles | drgns/src/lexer.rs:457-503 | the lexemes concatenated reproduce the consumed input, and consumption stops only at the end or at the fatal character |
| Lexemes.PlusPlusExamples | drgns/src/lexer.rs:213-224 | `++=` lexes as one `PlusPlusEquals` and `++` as one `PlusPlus` |
| Lexemes.PlusEqualsExamples | drgns/src/lexer.rs:225-229 | `+=` lexes as `PlusEquals` and a lone `+` as `Plus` |
| Lexemes.DotFamilyExamples | drgns/src/lexer.rs:391-401 | `...` is one `Ellipses`, while `..` starts with a single `Dot` |
| Lexemes.ParseExample | drgns/src/lexer.rs:437-446 | `"1234"` parses to 1234 |
| Lexemes.IntLiteralExample | drgns/src/lexer/test.rs:61-68 | `"1234"` is one `IntLit` of length 4 carrying 1234 |
| Lexer.PlusFamilyScan | drgns/src/lexer.rs:213-231 | a `+` is `++=` when followed by `+=`, else `++` when followed by `+`, else `+=` when followed by `=`, else a lone `+`, under the longest-match rule |
| Lexer.MulFamilyScan | drgns/src/lexer.rs:234-252 | the same decision for `*`: `**=`, `**`, `*=` or `*` |
| Lexer.QuestionFamilyScan | drgns/src/lexer.rs:362-376 | the same decision for `?`: `??=`, `??` or `?` |
| Lexer.Lexer.constructor | drgns/src/lexer.rs:208-210 | `Lexer::new` keeps the given reader, with no error reported yet |
| Lexer.Lexer.AmbiguousPlus | drgns/src/lexer.rs:213-231 | after a `+` the window holds exactly the lexeme the longest-match rule gives, with that token type and no literal |
| Lexer.Lexer.AmbiguousMul | drgns/src/lexer.rs:234-252 | the same for `*`, `**`, `*=`, `**=` |
| Lexer.Lexer.AmbiguousMinus | drgns/src/lexer.rs:255-268 | the same for `-`, `-=`, `->` |
| Lexer.Lexer.AmbiguousSlash | drgns/src/lexer.rs:271-287 | the same for `/`, `/=`, and a `//` comment, whose loop consumes the line up to its newline |
| Lexer.Lexer.AmbiguousMod | drgns/src/lexer.rs:290-299 | the same for `%`, `%=` |
| Lexer.Lexer.AmbiguousLess | drgns/src/lexer.rs:302-315 | the same for `<`, `<<`, `<=` |
| Lexer.Lexer.AmbiguousGreater | drgns/src/lexer.rs:318-331 | the same for `>`, `>>`, `>=` |
| Lexer.Lexer.AmbiguousColon | drgns/src/lexer.rs:334-347 | the same for `:`, `::`, `:=` |
| Lexer.Lexer.AmbiguousBang | drgns/src/lexer.rs:350-359 | the same for `!`, `!=` |
| Lexer.Lexer.AmbiguousQuestion | drgns/src/lexer.rs:362-376 | the same for `?`, `??`, `??=` |
| Lexer.Lexer.AmbiguousEqual | drgns/src/lexer.rs:379-388 | the same for `=`, `==` |
| Lexer.Lexer.AmbiguousDot | drgns/src/lexer.rs:391-401 | the same for `.` and `...` |
| Lexer.Lexer.TakeDigits | drgns/src/lexer.rs:410-412 | the loop takes exactly the maximal run of digits and `_` into the window |
| Lexer.Lexer.DecodeInt | drgns/src/lexer.rs:437-446 | the literal is the `u64` value of the lexeme without separators; on overflow the error is reported once and 0 is used |
| Lexer.Lexer.LexNumberLiteral | drgns/src/lexer.rs:403-449 | the window ends up holding exactly the numeral the classifier describes, with its kind and literal, and an error is reported exactly for an integer that does not fit |
| Lexer.Lexer.Next | drgns/src/lexer.rs:455-504 | at the end of input `None` with nothing changed; otherwise the token of the lexeme at the head (single-character, operator, comment, whitespace, numeral), emitted with an empty window after it; an unaccepted character is the fatal crash |
| Lexer.Lexer.Collect | drgns/src/lexer.rs:452-505 | iterating `next` to the end yields exactly the classifier's token stream, and stops early (the crash) exactly when that stream stops short of the end |
| Source.SourceArena.constructor | drgns/src/source/arena.rs:27-34 | a new arena is empty and maps `"REPL"` to id 0 |
| Source.SourceArena.Intern | drgns/src/source/arena.rs:39-48 | appends `src`'s characters and keeps the rest; the view starts at the old length, is as long as `src` and spells `src` |
| Source.SourceArena.Get | drgns/src/source/arena.rs:54-56 | `get(idx)` is `Some(data[idx])` exactly when `idx < len` |
| Source.SourceView.FromArena | drgns/src/source/view.rs:29-34 | `from_arena` covers `[0, arena.len())` |
| Source.SourceView.Grow | drgns/src/source/view.rs:36-38 | `grow` keeps the start and moves the length and the end up by one |
| Source.SourceView.PullTail | drgns/src/source/view.rs:41-43 | `pull_tail` starts an empty view at the old end |
| Source.SourceView.IntoString | drgns/src/source/view.rs:57-66 | with the arena alive, `into_string` is the arena text `[start, end)` |
| Source.GetBackPreIff | drgns/src/source/view.rs:76-79 | `get_back(i)`'s precondition holds exactly for `start < i <= end`: `i` counts from the absolute end |
| Source.SourceView.GetPre | drgns/src/source/view.rs:69-74 | `get(i)`'s asserted precondition `i < len`: it needs a non-empty view and an index inside it |
| Source.SourceView.GetBackPre | drgns/src/source/view.rs:77-86 | `get_back(i)`'s asserted precondition, with its `usize` subtraction not underflowing: it needs a non-empty view and `i` past its start |
| Source.SourceView.Add | drgns/src/source/view.rs:110-118 | `a + b` demands `a.start <= b.start` and `a.end <= b.end` and covers from `a`'s start to `b`'s end |
| Source.Sum | drgns/src/source/view.rs:110-118 | the corrected sum starts at `a.start` and ends at `b.end` |
| Source.SumCovers | drgns/src/source/view.rs:110-118 | the sum contains both operands, and the sum of adjacent views spells their concatenation |
| Source.SumAsWrittenDropsRhs | drgns/src/source/view.rs:112-113 | as written, `(2,1) + (3,2)` is the empty `(2,0)`, ending before its right operand |
| Source.Reader.FromArena | drgns/src/source/arena.rs:92-101 | an empty window at 0 over the whole arena, which the caller's `Rc` keeps alive; the reader is well formed |
| Source.Reader.FromSpan | drgns/src/source/arena.rs:103-112 | an empty window at 0, bounded by the given view, whether or not its arena is still alive; the reader is well formed |
| Source.Reader.AbsBounds | drgns/src/source/arena.rs:114-119 | the walked range in arena indices: it starts at the base and is `rel_bounds` long; only the absolute case needs the arena alive |
| Source.Reader.RelBounds | drgns/src/source/arena.rs:121-126 | how many characters the reader walks; when it can read, everything it walks lies inside the arena |
| Source.Reader.IsAtEnd | drgns/src/source/arena.rs:128-130 | when not at the end and able to read, the head character lies inside the arena |
| Source.Reader.Peek | drgns/src/source/arena.rs:128-146 | `None` exactly at the end (`end >= rel_bounds`), without consulting the arena, so also for a relative reader whose arena is gone; else the character at the head, counted from the reader's base, which needs the arena alive (the `unwrap`) |
| Source.Reader.PeekN | drgns/src/source/arena.rs:148-161 | `None` exactly when `end + n >= rel_bounds`, whether or not a relative reader's arena is alive; else the character `n` past the head, which needs the arena alive |
| Source.Reader.AdvanceHead | drgns/src/source/arena.rs:163-167 | returns what `peek` returned; on `Some` the window grows by one, on `None` (also at the end of a relative reader whose arena is gone) nothing changes; the reader stays well formed |
| Source.Reader.AdvanceTail | drgns/src/source/arena.rs:169-173 | returns a copy of the window and leaves an empty window at its end; it has no precondition, since it never upgrades the weak reference, and it keeps a well-formed reader well formed |
| Source.TailAfterDrop | drgns/src/source/arena.rs:169-173 | an absolute reader whose arena has been dropped still advances its tail and hands out its (empty) window |
| Source.RelativePeekReadsView | drgns/src/source/arena.rs:121-161 | a relative reader's `peek_n` returns character `end + n` of its bounding view's own text |
| Source.RelativePeekAsWrittenReadsArenaStart | drgns/src/source/arena.rs:133-145 | as written, a reader over view `(3,2)` of `"abcde"` peeks `'a'`, not the view's first character `'d'` |
| SourceReader.SourceString.Text | drgns/src/source/reader.rs:66 | the range `back..front` spells the source characters between them |
| SourceReader.Reader.InnerLen | drgns/src/source/reader.rs:15-17 | the source length exactly when the source is alive |
| SourceReader.Reader.Exhausted | drgns/src/source/reader.rs:19-26 | exhausted exactly when the source is gone or `front >= len` |
| SourceReader.Reader.GetFromInner | drgns/src/source/reader.rs:28-30 | `Some(src[i])` exactly when the source is alive and `i < len` |
| SourceReader.Reader.PeekN | drgns/src/source/reader.rs:34-36 | the character `i` past the front, under the same conditions |
| SourceReader.Reader.Previous | drgns/src/source/reader.rs:38-40 | demands `front >= 1`; the character just before the front |
| SourceReader.Reader.PeekBackN | drgns/src/source/reader.rs:42-44 | the character `i` past the back |
| SourceReader.Reader.Front | drgns/src/lookahead.rs:71-73 | the trait default equals `peek_n(0)`, the character `advance` would return |
| SourceReader.Reader.Back | drgns/src/lookahead.rs:76-78 | the trait default equals `peek_back_n(0)` |
| SourceReader.Reader.WindowLen | drgns/src/source/reader.rs:46-48 | `back + window_len == front` |
| SourceReader.Reader.WindowIsEmpty | drgns/src/source/reader.rs:50-52 | empty exactly when `front == back` |
| SourceReader.Reader.Advance | drgns/src/source/reader.rs:54-63 | when exhausted, `None` and the front stays; otherwise `src[front]` and the front moves on by one; `back <= front` is kept |
| SourceReader.Reader.Consume | drgns/src/source/reader.rs:65-75 | the back moves up to the front; the old `back..front` range is returned unless the reader is now exhausted |
| SourceReader.Reader.Burn | drgns/src/lookahead.rs:98-100 | consume and discard: the window is closed |
| SourceReader.Reader.Reset | drgns/src/source/reader.rs:77-79 | the front returns to the back and the window is empty |
| SourceReader.DroppedIsExhausted | drgns/src/source/reader.rs:15-30 | once the source is dropped the reader is exhausted and every lookup is `None` |
| SourceReader.AdvanceResetReplays | drgns/src/source/reader.rs:54-79 | from an empty window, `k` advances return the source characters from the back on (then `None`), and after a `reset` the next `k` advances return the same `k` results |
| Lookahead.Lookahead.constructor | drgns/src/lookahead.rs:44-57 | `lookahead()` starts with `branch == main` at the start and `current == None` |
| Lookahead.Lookahead.Peek | drgns/src/lookahead.rs:17-20 | returns the item at the branch and stores it in `current`; only the branch moves |
| Lookahead.Lookahead.Reset | drgns/src/lookahead.rs:22-24 | the branch returns to the main iterator |
| Lookahead.Lookahead.Commit | drgns/src/lookahead.rs:26-28 | the main iterator catches up with the branch |
| Lookahead.Lookahead.Next | drgns/src/lookahead.rs:37-41 | returns the item at the main iterator, stores it in `current`, moves it on and resynchronises the branch |
| Lookahead.Lookahead.PeekThenReset | drgns/src/lookahead.rs:17-24 | any number of `peek`s read successive items from the branch, and `reset` leaves the main iterator where it was |
| Lookahead.PeekResetNext | drgns/src/lookahead.rs:17-41 | `peek`, `reset`, `next` return the same item |
| Lookahead.VecCursor.constructor | drgns/src/lookahead.rs:120-127 | `VecCursor::new`: an empty window at the start with nothing read yet |
| Lookahead.VecCursor.PeekN | drgns/src/lookahead.rs:131-133 | the item `i` past the front, if there is one |
| Lookahead.VecCursor.PeekBackN | drgns/src/lookahead.rs:139-141 | the item `i` past the back, if there is one |
| Lookahead.VecCursor.Front | drgns/src/lookahead.rs:71-73 | the trait default equals `peek_n(0)` |
| Lookahead.VecCursor.Back | drgns/src/lookahead.rs:76-78 | the trait default equals `peek_back_n(0)` |
| Lookahead.VecCursor.WindowLen | drgns/src/lookahead.rs:143-145 | `back + window_len == front` |
| Lookahead.VecCursor.WindowIsEmpty | drgns/src/lookahead.rs:147-149 | empty exactly when `front == back` |
| Lookahead.VecCursor.Advance | drgns/src/lookahead.rs:151-156 | the item at the front (or `None`), also stored as `previous`; the front moves on even past the end |
| Lookahead.VecCursor.Consume | drgns/src/lookahead.rs:158-165 | the window's items with the back moved to the front, or `None` with nothing moved once back or front is at the end |
| Lookahead.VecCursor.Burn | drgns/src/lookahead.rs:98-100 | consume and discard |
| Lookahead.VecCursor.Reset | drgns/src/lookahead.rs:167-169 | the front returns to the back |
| Lookahead.CursorTest | drgns/src/lookahead.rs:172-192 | every value the unit test asserts, in order, including `consume` giving `[1, 2]` and `advance` replaying after `reset` |
| Parser.KindAt | drgns/src/parser.rs:54 | the type of the token at `i` exactly when the stream is that long |
| Parser.Parser.constructor | drgns/src/parser.rs:23-25 | `Parser::new` wraps the token stream with the peek cursor at its start |
| Parser.Parser.MatchOne | drgns/src/parser.rs:53-61 | `Some(t)` exactly when the next peeked token has type `tt`, with the cursor past it; otherwise `None` and the peek cursor back at the start of the unconsumed stream; no token is consumed |
| Parser.Parser.MatchIntLiteral | drgns/src/parser.rs:48-51 | an `IntLiteral` node exactly when the next peeked token is an `IntLit` |
| Parser.Parser.MatchUnExpression | drgns/src/parser.rs:32-39 | `UnExpression { Neg, IntLiteral }` exactly when the next two peeked tokens are `Minus` then `IntLit`; any failure resets the cursor, giving back the `Minus` too |
| Parser.MatchTwo | drgns/src/parser.rs:32-61 | two successful `match_one`s peek two successive tokens; after a failed one the next match starts again from the first token |
| Ast.Walk | drgns/src/parser/ast.rs:12-18 | a walk starts by visiting the expression itself |
| Ast.WalkBin | drgns/src/parser/ast.rs:40-45 | a binary walk starts by visiting the binary expression |
| Ast.WalkOperator | drgns/src/parser/ast.rs:60-62 | an operator walk is the one operator visit |
| Ast.VisitsOfBin | drgns/src/parser/ast.rs:12-62 | the expressions, binary expressions and operators a binary node's walk visits are the node's own followed by its lhs walk's and then its rhs walk's |
| Ast.WalkVisitsEachNodeOnce | drgns/src/parser/ast.rs:12-45 | the walk visits every expression node of the tree exactly once |
| Ast.WalkVisitsEachOperatorOnce | drgns/src/parser/ast.rs:40-62 | the walk makes one binary-expression visit and one operator visit per binary node |
| Ast.WalkIsPreOrder | drgns/src/parser/ast.rs:12-45 | the walk visits a node before everything below it: first the root, then only proper subexpressions |
| Ast.ShowOperator | drgns/src/parser/ast.rs:65-71 | `Pow` displays as `**` |
| Ast.Show | drgns/src/parser/ast.rs:21-30 | a literal displays as its span's text; a binary expression is parenthesised |
| Ast.ShowBin | drgns/src/parser/ast.rs:48-52 | a binary expression displays in prefix form: `(`, the operator and a space first, `)` last |
| Ast.ShowIsParenthesised | drgns/src/parser/ast.rs:21-52 | when no literal text holds a parenthesis, the display holds one `(` and one `)` per binary expression |
| Values.TruncDivRem | drgns/src/values.rs:28-50 | Rust's `/` and `%`: `x == (x/y)*y + x%y`, the remainder is smaller in size than `y` and has the sign of `x`, and the size of `x/y` is that of `x` divided by that of `y`, rounded down |
| Values.TruncatesTowardZero | drgns/src/values.rs:28-50 | `-7 / 2` is `-3` and `-7 % 2` is `-1`, where Euclidean division gives `-4` and `1` |
| Values.TruncDivFits | drgns/src/values.rs:28-50 | the only `i64` quotient outside `i64` is `i64::MIN / -1` |
| Values.AsU32 | drgns/src/values.rs:16 | `y as u32` is below 2^32 and is `y` itself when `y` already fits |
| Values.NegativeExponentWraps | drgns/src/values.rs:16 | a negative exponent wraps: `-1 as u32` is `u32::MAX` |
| Values.Neg | drgns/src/values.rs:7-12 | demands `i != i64::MIN`; `Some` of the additive inverse |
| Values.Pow | drgns/src/values.rs:14-19 | demands the power fits; `Some(x^(y as u32))`, which is `x^y` for `0 <= y < 2^32` |
| Values.Mul | drgns/src/values.rs:21-26 | demands the product fits; `Some` of the product |
| Values.Div | drgns/src/values.rs:28-38 | demands `y != 0` and not `MIN / -1`; `Some` of the quotient rounded toward zero, whose sign is that of `x * y` |
| Values.Rem | drgns/src/values.rs:40-50 | the same demands; `Some` of a remainder smaller in size than `y` with the sign of `x` |
| Values.Add | drgns/src/values.rs:52-57 | demands the sum fits; `Some` of the sum |
| Values.Sub | drgns/src/values.rs:59-64 | demands the difference fits; `Some` of the difference |
| Values.DivRemRecompose | drgns/src/values.rs:28-50 | `div` and `rem` recompose the dividend |
| Eval.ExpressionEval.constructor | drgns/src/eval.rs:10-12 | the stack starts empty |
| Eval.ExpressionEval.VisitExpression | drgns/src/eval.rs:16 | the stack is unchanged |
| Eval.ExpressionEval.VisitBinExpression | drgns/src/eval.rs:18 | the stack is unchanged |
| Eval.ExpressionEval.VisitUnExpression | drgns/src/eval.rs:55 | the stack is unchanged |
| Eval.ExpressionEval.VisitBinOperator | drgns/src/eval.rs:20-53 | demands two operands and a defined operation; the stack shrinks by one, everything below the operands is kept, and the top becomes `top op second` |
| Eval.ExpressionEval.VisitUnOperator | drgns/src/eval.rs:57-64 | demands a non-empty stack whose top is not `i64::MIN`; only the top changes, to its negation |
| Eval.ExpressionEval.VisitLitExpression | drgns/src/eval.rs:66-70 | the literal's value is pushed on top of the unchanged stack |
| Eval.TopIsLeftOperand | drgns/src/eval.rs:20-53 | pushing 2 then 7 and visiting `Sub` leaves 5; visiting `Div` leaves 3: the top is the left operand |
| Eval.NegatesTop | drgns/src/eval.rs:57-64 | negating the top of `[4, -9]` gives `[4, 9]` |
| Interner.FirstLine | drgns/src/interner.rs:44 | the first line holds no `'\n'`, and line, `'\n'` and rest together give back the input |
| Interner.Lines | drgns/src/interner.rs:44 | `str::lines` yields at least one line exactly when the input is non-empty |
| Interner.LinesHaveNoNewline | drgns/src/interner.rs:44 | no line holds a `'\n'` |
| Interner.LinesJoinRoundTrip | drgns/src/interner.rs:44 | joining the lines with `"\n"` gives back any input without `'\r'` and without a final `'\n'` |
| Interner.CrLfExample | drgns/src/interner.rs:44 | `"a\r\nb"` splits into `"a"` and `"b"` |
| Interner.BareCrExample | drgns/src/interner.rs:44 | a final bare `'\r'` is kept: `"x\r"` is the one line `"x\r"` |
| Interner.ShowDefinedIff | drgns/src/interner.rs:18-38 | `Display` does not panic exactly when the span starts at a stored line, covers at least one, and its column cuts fit the first and the last line `take` collects |
| Interner.Show | drgns/src/interner.rs:16-40 | a span over one line displays as exactly `col_len` characters |
| Interner.ShowWholeLine | drgns/src/interner.rs:27-52 | a whole-line span is displayable and displays as its line |
| Interner.ShowWholeLines | drgns/src/interner.rs:16-40 | a span over whole consecutive lines displays as those lines joined by `"\n"` |
| Interner.ShowAppended | drgns/src/interner.rs:16-40 | lines appended to the store display, as one span, as their join |
| Interner.DisplayReproducesSource | drgns/src/interner.rs:16-55 | after interning, the span over all of a source's lines displays as the source itself |
| Interner.LineArena.InternRaw | drgns/src/interner.rs:43-55 | appends the lines in order and keeps earlier lines; one span per line at consecutive indices from the old length, with `col_start = 0`, `lin_len = 1` and `col_len` the line's length; each displays as its line |

## Left out

- Float literal decoding and `PrimitiveValue::Float`'s `f64` are left out. A
  float numeral is classified `FloatLit` and carries an opaque `Float`.
- Program I/O is left out: `main.rs`, `main.go` and `Source::from_path`.
- `error_handler.rs` and `errors.rs` are not part of this model. Their
  formatting and global state are omitted.
  - The one error the lexer reports, `err_int_too_big`, is a ghost counter.
  - The fatal `fatal_unreachable` is a `Fatal` step of `Lexer.Lexer.Next`.
- The `err_int_too_big` message says the maximum is 2^47, while the code
  parses a `u64`. The model follows the code.
- `Lexemes.ParseU64` does not model Rust accepting a leading `+` in
  `parse::<u64>`. A lexeme never starts with `+`.
- `source_id: todo!()` and the `SourceCode` impl are unfinished stubs that
  always panic. They are omitted.
- `SourceView`'s `Display` writes the text twice. That is cosmetic output
  and is not modelled. Token `to_string` and `TokenType` `Display` are
  omitted too.
- The index arithmetic of `Span::get`, `SourceView::get` and
  `SourceView::get_back` is not modelled. It underflows or ignores `i`; only
  the preconditions (`GetPre`, `GetBackPre`, `Arena.Span.GetBack`) are.
- `Rc`/`Weak`, `RwLock`, `RefCell`, `BiMap` and `AppendOnlyVec` are replaced:
  - a weak reference that no longer upgrades is the owner's `alive` flag;
  - `SourceArena.Drop` and `Source.Drop` clear that flag;
  - the id map is a plain `map`;
  - thread safety is not modelled.
- The `SourceReader.Reader` constructor stands in for the struct literal
  that builds a reader, since the source defines no constructor.
- `Interner.Show` and `Interner.LineArena.InternRaw` count columns in
  characters. Rust slices `String`s by byte offset (and panics off a
  character boundary), which is the same only for ASCII text.
- `Values.Neg`, `Values.Mul`, `Values.Add`, `Values.Sub` and `Values.Pow`
  require that the result fits `i64`. This is the debug-build overflow
  panic; a release build wraps around instead, which is not modelled.
- `Values.Pow` does not require `0 <= y < 2^32`. It models `y as u32`
  exactly, so a negative exponent wraps (`Values.NegativeExponentWraps`).
- `Eval.BinOperator`, `Eval.UnOperator` and `Eval.LitExpression` follow
  the names `eval.rs` uses. The `parser` types they come from are not part
  of this model. `Ast.BinOperator` has only `Pow`, as in `ast.rs`.
- `Ast.Show` writes an integer literal as its span's text in the arena.
  `ast.rs` calls `into_string` on an `arena::Span`, which has no such
  method; `to_string` is meant.
- The parser's token stream is the sequence of tokens the lexer yields, not
  a running lexer. `Parser.Parser` never consumes tokens, because no
  `match_*` function does.
- `Interner.Lines` follows `str::lines` as currently documented. A final
  bare `'\r'` is kept (`Interner.BareCrExample`).
- `Lexemes.FamilyShape`, `Lexemes.OperatorNotSingle` and the `Ast` walk
  helpers state facts about the model's own tables. They have no source
  line of their own beyond the cited dispatch code.

## Findings

| source | as written | input that shows it | evidently intended | confidence | as-written member | corrected member |
|---|---|---|---|---|---|---|
| drgns/src/arena.rs:91 | `is_at_end` tests `current.start >= arena.len()`, so `peek` indexes `arena[head]` while the head is already at the end | arena `"a"`, window `(0, 1)` after reading `'a'`: not "at end", and `peek` reads index 1 of a one-character arena | test the head index, as `peek2` does: `start + length >= len` | high (not executed) | Arena.IsAtEndAsWrittenLetsPeekPastEnd | Arena.Reader.Peek |
| drgns/src/source/view.rs:113 | `a + b` takes the length `rhs.len() - self.start` | `(2,1) + (3,2)` gives the empty `(2,0)`, and a start larger than `b.len()` underflows | length `b.end - a.start`, covering both operands | high (not executed) | Source.SumAsWrittenDropsRhs | Source.SumCovers |
| drgns/src/source/arena.rs:133-161 | a relative reader reads arena index `current.end()` (plus `n`), counted from 0, not from its bounding view | view `(3,2)` of `"abcde"`: the first `peek` returns `'a'` instead of `'d'` | read index `view.start + current.end() + n` | high (not executed) | Source.RelativePeekAsWrittenReadsArenaStart | Source.RelativePeekReadsView |
| drgns/src/arena.rs:56 | `intern` sizes the span by `src.len()`, the UTF-8 byte count, while the arena receives one slot per character (same at drgns/src/source/arena.rs:45) | interning `"é"` into an empty arena returns `(0, 2)` over one character | size the span by the number of characters pushed | high (not executed) | Arena.InternAsWrittenOverruns | Arena.CharArena.Intern |
