/**
 * What one call of the lexer (drgns/src/lexer.rs) classifies, stated as
 * functions of the arena text: the token types, the keyword table, the
 * operator families with their longest-match rule, and `Scan`, the lexeme
 * that starts at a given index. `LexFrom` is the token stream that repeated
 * calls produce; its lexemes tile the text.
 */
module Lexemes {
  import opened Wrappers
  import Data
  import Arena

  datatype TokenType =
    // unambiguously single-character tokens
    | SingleQuote | DoubleQuote | Caret | LeftParen | RightParen
    | LeftBracket | RightBracket | LeftBrace | RightBrace | Comma | Semicolon | Pipe
    // one or more characters
    | Plus | PlusPlus | PlusEquals | PlusPlusEquals
    | Mul | MulMul | MulEquals | MulMulEquals
    | Minus | MinusEquals | Arrow | Div | DivEquals | Mod | ModEquals
    | Less | LessEquals | DoubleLess | Greater | GreaterEquals | DoubleGreater
    | Colon | ColonColon | ColonEquals | Bang | BangEquals
    | Question | DoubleQuestion | DoubleQuestionEqual | Equal | EqualEqual
    | Dot | Ellipses | DollarBrace
    // literals
    | Identifier | Symbol | String | RawString | IntLit | FloatLit
    // keywords
    | And | Asr | Bool | Continue | Copy | False | Float | For | Function | Int | In
    | Land | List | Lnot | Lor | Lsl | Lsr | Lxor | Move | Mut | None_ | Not | Obj | Or
    | Return | Str | Sym | True | Underscore | Use | Xor
    // whitespace, comments and already handled tokens
    | Ignore
    | Unknown
    | EOF

  /** A token: its type, its lexeme as a span of the arena, and its decoded literal. */
  datatype Token = Token(tokenType: TokenType, lexeme: Arena.Span, literal: Option<Data.PrimitiveValue>)

  /** The `KEYWORDS` table as a plain immutable map. */
  const Keywords: map<string, TokenType> := map[
    "and" := And, "asr" := Asr, "bool" := Bool, "continue" := Continue,
    "copy" := Copy, "false" := False, "float" := Float, "for" := For,
    "function" := Function, "int" := Int, "in" := In, "land" := Land,
    "list" := List, "lnot" := Lnot, "lor" := Lor, "lsl" := Lsl, "lsr" := Lsr,
    "lxor" := Lxor, "move" := Move, "mut" := Mut, "none" := None_, "not" := Not,
    "obj" := Obj, "or" := Or, "return" := Return, "str" := Str, "sym" := Sym,
    "true" := True, "_" := Underscore, "use" := Use, "xor" := Xor]

  /** Looking a word up in the keyword table. */
  function KeywordLookup(word: string): (r: Option<TokenType>)
    ensures r.Some? <==> word in Keywords
    ensures r.Some? ==> r.value == Keywords[word]
  {
    if word in Keywords then Some(Keywords[word]) else None
  }

  /** The character at `i`, if the text is that long (the reader's `peek`). */
  function At(text: seq<char>, i: nat): Option<char>
  {
    if i < |text| then Some(text[i]) else None
  }

  function SingleCharKind(c: char): Option<TokenType>
  {
    match c
    case '\'' => Some(SingleQuote)
    case '"' => Some(DoubleQuote)
    case '^' => Some(Caret)
    case '(' => Some(LeftParen)
    case ')' => Some(RightParen)
    case '[' => Some(LeftBracket)
    case ']' => Some(RightBracket)
    case '{' => Some(LeftBrace)
    case '}' => Some(RightBrace)
    case ',' => Some(Comma)
    case ';' => Some(Semicolon)
    case '|' => Some(Pipe)
    case _ => None
  }

  predicate IsWhitespace(c: char)
  {
    c == ' ' || c == '\n' || c == '\r' || c == '\t'
  }

  predicate IsDigit(c: char)
  {
    '0' <= c <= '9'
  }

  /** The numeral scanner's `is_digit_or_sep`. */
  predicate IsDigitOrSep(c: char)
  {
    IsDigit(c) || c == '_'
  }

  /** An operator spelling and the token type it produces. */
  datatype Operator = Operator(spelling: string, kind: TokenType)

  /**
   * The operators that begin with `c`: the cases of the `ambiguous_*` helper
   * that `c` dispatches to (the `//` comment aside).
   */
  function Family(c: char): seq<Operator>
  {
    match c
    case '+' => [Operator("+", Plus), Operator("++", PlusPlus), Operator("+=", PlusEquals), Operator("++=", PlusPlusEquals)]
    case '*' => [Operator("*", Mul), Operator("**", MulMul), Operator("*=", MulEquals), Operator("**=", MulMulEquals)]
    case '-' => [Operator("-", Minus), Operator("-=", MinusEquals), Operator("->", Arrow)]
    case '/' => [Operator("/", Div), Operator("/=", DivEquals)]
    case '%' => [Operator("%", Mod), Operator("%=", ModEquals)]
    case '<' => [Operator("<", Less), Operator("<<", DoubleLess), Operator("<=", LessEquals)]
    case '>' => [Operator(">", Greater), Operator(">>", DoubleGreater), Operator(">=", GreaterEquals)]
    case ':' => [Operator(":", Colon), Operator("::", ColonColon), Operator(":=", ColonEquals)]
    case '!' => [Operator("!", Bang), Operator("!=", BangEquals)]
    case '?' => [Operator("?", Question), Operator("??", DoubleQuestion), Operator("??=", DoubleQuestionEqual)]
    case '=' => [Operator("=", Equal), Operator("==", EqualEqual)]
    case '.' => [Operator(".", Dot), Operator("...", Ellipses)]
    case _ => []
  }

  /** Every member of a family is spelled with its lead character first, the lone character first of all. */
  lemma FamilyShape(c: char)
    ensures Family(c) != [] ==> Family(c)[0].spelling == [c]
    ensures forall o :: o in Family(c) ==> 1 <= |o.spelling| && o.spelling[0] == c
  {
  }

  predicate IsPrefix(p: seq<char>, s: seq<char>)
  {
    |p| <= |s| && forall k :: 0 <= k < |p| ==> s[k] == p[k]
  }

  /** The longest operator of `ops` that `rest` begins with. */
  function Longest(ops: seq<Operator>, rest: seq<char>): (r: Option<Operator>)
    ensures r.Some? ==> r.value in ops && IsPrefix(r.value.spelling, rest)
    ensures forall o :: o in ops && IsPrefix(o.spelling, rest) ==> r.Some? && |o.spelling| <= |r.value.spelling|
  {
    if ops == [] then None
    else
      var tail := Longest(ops[1..], rest);
      assert forall o :: o in ops ==> o == ops[0] || o in ops[1..];
      if IsPrefix(ops[0].spelling, rest) && (tail.None? || |tail.value.spelling| < |ops[0].spelling|)
      then Some(ops[0])
      else tail
  }

  /** The operator a lexeme starting at `start` with an operator character is. */
  function LongestOperator(text: seq<char>, start: nat): (op: Operator)
    requires start < |text| && Family(text[start]) != []
    ensures op in Family(text[start]) && IsPrefix(op.spelling, text[start..])
    ensures 1 <= |op.spelling| <= |text| - start
    ensures forall o :: o in Family(text[start]) && IsPrefix(o.spelling, text[start..]) ==> |o.spelling| <= |op.spelling|
  {
    var ops := Family(text[start]);
    FamilyShape(text[start]);
    assert ops[0] in ops && IsPrefix(ops[0].spelling, text[start..]);
    Longest(ops, text[start..]).value
  }

  /** The length of the run of digits and separators starting at `i`. */
  function DigitRun(text: seq<char>, i: nat): (n: nat)
    decreases |text| - i
    ensures n == 0 || i + n <= |text|
  {
    if i < |text| && IsDigitOrSep(text[i]) then 1 + DigitRun(text, i + 1) else 0
  }

  /** The run is maximal: all digits or separators, and not followed by one. */
  lemma {:induction false} DigitRunShape(text: seq<char>, i: nat)
    decreases |text| - i
    ensures forall k :: i <= k < i + DigitRun(text, i) ==> IsDigitOrSep(text[k])
    ensures i + DigitRun(text, i) < |text| ==> !IsDigitOrSep(text[i + DigitRun(text, i)])
  {
    if i < |text| && IsDigitOrSep(text[i]) {
      DigitRunShape(text, i + 1);
    }
  }

  /** The length of the run of characters other than `'\n'` starting at `i`. */
  function LineRun(text: seq<char>, i: nat): (n: nat)
    decreases |text| - i
    ensures n == 0 || i + n <= |text|
  {
    if i < |text| && text[i] != '\n' then 1 + LineRun(text, i + 1) else 0
  }

  /** The run stops exactly at the next newline or at the end of the text. */
  lemma {:induction false} LineRunShape(text: seq<char>, i: nat)
    decreases |text| - i
    ensures forall k :: i <= k < i + LineRun(text, i) ==> text[k] != '\n'
    ensures i + LineRun(text, i) < |text| ==> text[i + LineRun(text, i)] == '\n'
  {
    if i < |text| && text[i] != '\n' {
      LineRunShape(text, i + 1);
    }
  }

  /** `replace("_", "")`: the lexeme without its digit separators. */
  function RemoveUnderscores(s: string): (r: string)
    ensures forall k :: 0 <= k < |r| ==> r[k] != '_'
    ensures |r| <= |s|
  {
    if s == [] then [] else (if s[0] == '_' then [] else [s[0]]) + RemoveUnderscores(s[1..])
  }

  predicate AllDigitsOrSeps(s: string)
  {
    forall k :: 0 <= k < |s| ==> IsDigitOrSep(s[k])
  }

  /** The value of a string of decimal digits, most significant first, or `None` at a non-digit. */
  function Decimal(digits: string): Option<nat>
  {
    if digits == [] then Some(0)
    else
      var last := digits[|digits| - 1];
      match Decimal(digits[..|digits| - 1])
      case None => None
      case Some(v) => if IsDigit(last) then Some(v * 10 + (last as int - '0' as int)) else None
  }

  /**
   * `parse::<u64>` of the lexeme once its separators are removed: `None` for
   * an empty or non-numeric string and for a value that does not fit in 64 bits.
   */
  function ParseU64(lexeme: string): (r: Option<nat>)
    ensures r.Some? ==> r.value < Data.U64_LIMIT
  {
    var digits := RemoveUnderscores(lexeme);
    if digits == [] then None
    else match Decimal(digits)
      case None => None
      case Some(v) => if v < Data.U64_LIMIT then Some(v) else None
  }

  /** The integer literal a numeral carries: its value, or 0 when it does not parse. */
  function IntLiteralValue(lexeme: string): nat
  {
    match ParseU64(lexeme)
    case Some(v) => v
    case None => 0
  }

  /** Removing separators distributes over concatenation. */
  lemma {:induction false} RemoveUnderscoresAppend(a: string, b: string)
    ensures RemoveUnderscores(a + b) == RemoveUnderscores(a) + RemoveUnderscores(b)
    decreases |a|
  {
    if a == [] {
      assert a + b == b;
    } else {
      assert (a + b)[0] == a[0] && (a + b)[1..] == a[1..] + b;
      RemoveUnderscoresAppend(a[1..], b);
      var head := if a[0] == '_' then [] else [a[0]];
      calc {
        RemoveUnderscores(a + b);
        head + RemoveUnderscores(a[1..] + b);
        head + (RemoveUnderscores(a[1..]) + RemoveUnderscores(b));
        (head + RemoveUnderscores(a[1..])) + RemoveUnderscores(b);
      }
    }
  }

  /** A separator anywhere in a numeral does not change what it parses to. */
  lemma SeparatorIgnored(a: string, b: string)
    ensures ParseU64(a + "_" + b) == ParseU64(a + b)
  {
    RemoveUnderscoresAppend(a + "_", b);
    RemoveUnderscoresAppend(a, "_");
    RemoveUnderscoresAppend(a, b);
    assert RemoveUnderscores("_") == [] by {
      assert "_"[1..] == [];
    }
    assert RemoveUnderscores(a + "_" + b) == RemoveUnderscores(a + b);
  }

  /** The outcome of classifying the character at one index. */
  datatype Lexed =
    | Lexed(kind: TokenType, len: nat, literal: Option<Data.PrimitiveValue>)
    | Unexpected(c: char)

  /** `lex_number_literal` after the first digit at `start`. */
  function ScanNumber(text: seq<char>, start: nat): (r: Lexed)
    requires start < |text| && IsDigit(text[start])
    ensures r.Lexed? && 1 <= r.len <= |text| - start
  {
    var intEnd := start + 1 + DigitRun(text, start + 1);
    if At(text, intEnd) == Some('.') && intEnd + 1 < |text| && IsDigitOrSep(text[intEnd + 1]) then
      Lexed(FloatLit, intEnd + 1 + DigitRun(text, intEnd + 1) - start, Some(Data.Float))
    else
      Lexed(IntLit, intEnd - start, Some(Data.Int(IntLiteralValue(text[start..intEnd]))))
  }

  /**
   * The lexeme that begins at `start`: its type, its length and its literal,
   * or the character no rule accepts.
   */
  function Scan(text: seq<char>, start: nat): (r: Lexed)
    requires start < |text|
    ensures r.Lexed? ==> 1 <= r.len <= |text| - start
    ensures r.Unexpected? ==> r.c == text[start]
  {
    var c := text[start];
    if SingleCharKind(c).Some? then Lexed(SingleCharKind(c).value, 1, None)
    else if c == '/' && At(text, start + 1) == Some('/') then Lexed(Ignore, 1 + LineRun(text, start + 1), None)
    else if Family(c) != [] then
      var op := LongestOperator(text, start);
      Lexed(op.kind, |op.spelling|, None)
    else if IsWhitespace(c) then Lexed(Ignore, 1, None)
    else if IsDigit(c) then ScanNumber(text, start)
    else Unexpected(c)
  }

  /** No operator character is also a single-character token. */
  lemma OperatorNotSingle(c: char)
    requires Family(c) != []
    ensures SingleCharKind(c).None?
  {
    match c
    case '+' =>
    case '*' =>
    case '-' =>
    case '/' =>
    case '%' =>
    case '<' =>
    case '>' =>
    case ':' =>
    case '!' =>
    case '?' =>
    case '=' =>
    case '.' =>
  }

  /** An operator character outside a comment starts the longest operator of its family. */
  lemma ScanOfOperator(text: seq<char>, start: nat)
    requires start < |text| && Family(text[start]) != []
    requires !(text[start] == '/' && At(text, start + 1) == Some('/'))
    ensures Scan(text, start) == Lexed(LongestOperator(text, start).kind, |LongestOperator(text, start).spelling|, None)
  {
    OperatorNotSingle(text[start]);
  }

  /** A digit starts a number and nothing else. */
  lemma ScanOfDigit(text: seq<char>, start: nat)
    requires start < |text| && IsDigit(text[start])
    ensures Scan(text, start) == ScanNumber(text, start)
  {
    var c := text[start];
    assert SingleCharKind(c).None? && c != '/' && Family(c) == [] && !IsWhitespace(c);
  }

  /** Whether the lexeme at `start` is an integer literal that does not parse as a `u64`. */
  predicate IntTooBig(text: seq<char>, start: nat)
    requires start < |text|
  {
    var r := Scan(text, start);
    r.Lexed? && r.kind == IntLit && ParseU64(text[start..start + r.len]).None?
  }

  /** The tokens lexed from `pos` on, and where lexing stopped. */
  datatype Lexing = Lexing(tokens: seq<Token>, stop: nat)

  function LexFrom(text: seq<char>, pos: nat): (r: Lexing)
    requires pos <= |text|
    ensures pos <= r.stop <= |text|
    decreases |text| - pos
  {
    if pos == |text| then Lexing([], pos)
    else
      var s := Scan(text, pos);
      if s.Unexpected? then Lexing([], pos)
      else
        var rest := LexFrom(text, pos + s.len);
        Lexing([Token(s.kind, Arena.Span(pos, s.len), s.literal)] + rest.tokens, rest.stop)
  }

  /** The lexemes of `tokens`, concatenated. */
  function Spelled(text: seq<char>, tokens: seq<Token>): string
  {
    if tokens == [] then [] else tokens[0].lexeme.Text(text) + Spelled(text, tokens[1..])
  }

  /**
   * Every lexeme is non-empty and each starts where the previous one ended,
   * from `pos` up to where lexing stopped.
   */
  lemma {:induction false} LexFromContiguous(text: seq<char>, pos: nat)
    requires pos <= |text|
    ensures Contiguous(LexFrom(text, pos).tokens, pos, LexFrom(text, pos).stop)
    ensures forall i :: 0 <= i < |LexFrom(text, pos).tokens| ==> LexFrom(text, pos).tokens[i].lexeme.length >= 1
    decreases |text| - pos
  {
    if pos < |text| {
      var s := Scan(text, pos);
      if s.Lexed? {
        var rest := LexFrom(text, pos + s.len);
        LexFromContiguous(text, pos + s.len);
        var t := Token(s.kind, Arena.Span(pos, s.len), s.literal);
        assert LexFrom(text, pos).tokens == [t] + rest.tokens;
        ConsContiguous(t, rest.tokens, rest.stop);
      }
    }
  }

  /** The lexemes of `tokens` follow each other without gaps from `pos` to `stop`. */
  ghost predicate Contiguous(tokens: seq<Token>, pos: nat, stop: nat)
  {
    (tokens == [] ==> stop == pos) &&
    (tokens != [] ==> tokens[0].lexeme.start == pos && tokens[|tokens| - 1].lexeme.End() == stop) &&
    (forall i :: 0 < i < |tokens| ==> tokens[i].lexeme.start == tokens[i - 1].lexeme.End())
  }

  lemma ConsContiguous(t: Token, tokens: seq<Token>, stop: nat)
    requires Contiguous(tokens, t.lexeme.End(), stop)
    ensures Contiguous([t] + tokens, t.lexeme.start, stop)
  {
    var ts := [t] + tokens;
    forall i | 0 < i < |ts|
      ensures ts[i].lexeme.start == ts[i - 1].lexeme.End()
    {
      if i > 1 {
        assert ts[i] == tokens[i - 1] && ts[i - 1] == tokens[i - 2];
      }
    }
  }

  /** Contiguous lexemes inside the text spell the text between their ends. */
  lemma {:induction false} SpelledContiguous(text: seq<char>, tokens: seq<Token>, pos: nat, stop: nat)
    requires pos <= stop <= |text| && Contiguous(tokens, pos, stop)
    ensures Spelled(text, tokens) == text[pos..stop]
    decreases |tokens|
  {
    if tokens != [] {
      var t, rest := tokens[0], tokens[1..];
      var mid := t.lexeme.End();
      assert mid <= stop by {
        EndsIncrease(tokens, pos, stop);
      }
      assert Contiguous(rest, mid, stop) by {
        forall i | 0 < i < |rest|
          ensures rest[i].lexeme.start == rest[i - 1].lexeme.End()
        {
          assert rest[i] == tokens[i + 1] && rest[i - 1] == tokens[i];
        }
      }
      SpelledContiguous(text, rest, mid, stop);
      Arena.TextInBounds(t.lexeme, text);
      calc {
        Spelled(text, tokens);
        text[pos..mid] + text[mid..stop];
        { assert text[pos..mid] + text[mid..stop] == text[pos..stop]; }
        text[pos..stop];
      }
    }
  }

  /** In contiguous lexemes the first ends no later than the last. */
  lemma EndsIncrease(tokens: seq<Token>, pos: nat, stop: nat)
    requires tokens != [] && Contiguous(tokens, pos, stop)
    ensures tokens[0].lexeme.End() <= stop
  {
    var k := 0;
    while k < |tokens| - 1
      invariant 0 <= k < |tokens| && tokens[0].lexeme.End() <= tokens[k].lexeme.End()
    {
      assert tokens[k + 1].lexeme.start == tokens[k].lexeme.End();
      k := k + 1;
    }
  }

  /** Lexing stops only at the end of the text or at a character no rule accepts. */
  lemma {:induction false} LexFromStops(text: seq<char>, pos: nat)
    requires pos <= |text|
    ensures LexFrom(text, pos).stop < |text| ==> Scan(text, LexFrom(text, pos).stop).Unexpected?
    decreases |text| - pos
  {
    if pos < |text| {
      var s := Scan(text, pos);
      if s.Lexed? {
        LexFromStops(text, pos + s.len);
        assert LexFrom(text, pos).stop == LexFrom(text, pos + s.len).stop;
      } else {
        assert LexFrom(text, pos).stop == pos;
      }
    }
  }

  /**
   * Lexing loses nothing: the lexemes spell the text from `pos` to where
   * lexing stopped, and it stops only at the end of the text or at a
   * character no rule accepts.
   */
  lemma LexFromTiles(text: seq<char>, pos: nat)
    requires pos <= |text|
    ensures Spelled(text, LexFrom(text, pos).tokens) == text[pos..LexFrom(text, pos).stop]
    ensures LexFrom(text, pos).stop < |text| ==> Scan(text, LexFrom(text, pos).stop).Unexpected?
  {
    var r := LexFrom(text, pos);
    LexFromContiguous(text, pos);
    SpelledContiguous(text, r.tokens, pos, r.stop);
    LexFromStops(text, pos);
  }

  /**
   * A `//` comment runs up to, not including, the next newline or the end
   * of the text, and is ignorable.
   */
  lemma CommentRunsToNewline(text: seq<char>, start: nat)
    requires start + 1 < |text| && text[start] == '/' && text[start + 1] == '/'
    ensures Scan(text, start).Lexed? && Scan(text, start).kind == Ignore
    ensures var e := start + Scan(text, start).len;
            (e == |text| || text[e] == '\n') &&
            forall k :: start <= k < e ==> text[k] != '\n'
  {
    LineRunShape(text, start + 1);
  }

  /**
   * A numeral is a float exactly when its digit run is followed by `'.'`
   * and a digit or separator; otherwise it is an integer.
   */
  lemma NumeralKind(text: seq<char>, start: nat)
    requires start < |text| && IsDigit(text[start])
    ensures var r := Scan(text, start);
            var intEnd := start + 1 + DigitRun(text, start + 1);
            r.Lexed? && (r.kind == FloatLit || r.kind == IntLit) &&
            (r.kind == FloatLit <==> intEnd + 1 < |text| && text[intEnd] == '.' && IsDigitOrSep(text[intEnd + 1]))
  {
    ScanOfDigit(text, start);
  }

  /**
   * An integer numeral is the whole maximal run of digits and separators
   * (a following `'.'` stays unconsumed) and carries its `u64` value, or 0
   * when that does not parse.
   */
  lemma IntegerNumeral(text: seq<char>, start: nat)
    requires start < |text| && IsDigit(text[start]) && Scan(text, start).kind == IntLit
    ensures var r := Scan(text, start);
            var intEnd := start + r.len;
            intEnd == start + 1 + DigitRun(text, start + 1) &&
            AllDigitsOrSeps(text[start..intEnd]) &&
            (intEnd < |text| ==> !IsDigitOrSep(text[intEnd])) &&
            r.literal == Some(Data.Int(if ParseU64(text[start..intEnd]).Some? then ParseU64(text[start..intEnd]).value else 0))
  {
    ScanOfDigit(text, start);
    var intEnd := start + 1 + DigitRun(text, start + 1);
    DigitRunShape(text, start + 1);
    assert AllDigitsOrSeps(text[start..intEnd]) by {
      forall k | 0 <= k < intEnd - start
        ensures IsDigitOrSep(text[start..intEnd][k])
      {
        assert text[start..intEnd][k] == text[start + k];
      }
    }
  }

  /**
   * A float numeral runs past the `'.'` to the end of the run of digits and
   * separators after it.
   */
  lemma FloatNumeral(text: seq<char>, start: nat)
    requires start < |text| && IsDigit(text[start]) && Scan(text, start).kind == FloatLit
    ensures var r := Scan(text, start);
            var intEnd := start + 1 + DigitRun(text, start + 1);
            start + r.len > intEnd + 1 &&
            (forall k :: intEnd < k < start + r.len ==> IsDigitOrSep(text[k])) &&
            (start + r.len < |text| ==> !IsDigitOrSep(text[start + r.len]))
  {
    ScanOfDigit(text, start);
    var intEnd := start + 1 + DigitRun(text, start + 1);
    DigitRunShape(text, intEnd + 1);
  }

  /** Longest match in the `+` family: `++=` and `++` are one token each. */
  lemma PlusPlusExamples()
    ensures Scan("++=", 0) == Lexed(PlusPlusEquals, 3, None)
    ensures Scan("++", 0) == Lexed(PlusPlus, 2, None)
  {
    assert IsPrefix("++=", "++=");
    assert IsPrefix("++", "++");
    assert "++"[1] != "+="[1];
  }

  /** The shorter members of the `+` family: `+=` and a lone `+`. */
  lemma PlusEqualsExamples()
    ensures Scan("+=", 0) == Lexed(PlusEquals, 2, None)
    ensures Scan("+", 0) == Lexed(Plus, 1, None)
  {
    assert "++"[1] != "+="[1];
    assert IsPrefix("+=", "+=");
  }

  /** `...` is one token but `..` is a `Dot` followed by another. */
  lemma DotFamilyExamples()
    ensures Scan("...", 0) == Lexed(Ellipses, 3, None)
    ensures Scan("..", 0) == Lexed(Dot, 1, None)
  {
    assert IsPrefix("...", "...");
  }

  /** `1234` has no separators and the decimal value 1234. */
  lemma ParseExample()
    ensures ParseU64("1234") == Some(1234)
  {
    var s := "1234";
    assert RemoveUnderscores(s) == s by {
      assert RemoveUnderscores(s[3..]) == s[3..];
      assert RemoveUnderscores(s[2..]) == s[2..];
      assert RemoveUnderscores(s[1..]) == s[1..];
    }
    DecimalExample();
  }

  lemma DecimalExample()
    ensures Decimal("1234") == Some(1234)
  {
    var s := "1234";
    assert s[..3] == "123" && "123"[..2] == "12" && "12"[..1] == "1" && "1"[..0] == "";
  }

  /** The numeral test of the lexer: `1234` is one `IntLit` carrying 1234. */
  lemma IntLiteralExample()
    ensures Scan("1234", 0) == Lexed(IntLit, 4, Some(Data.Int(1234)))
  {
    var s := "1234";
    ScanOfDigit(s, 0);
    assert DigitRun(s, 4) == 0;
    assert DigitRun(s, 1) == 3;
    assert s[0..4] == s;
    ParseExample();
  }

}
