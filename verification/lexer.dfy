/**
 * The lexer of drgns/src/lexer.rs as it runs: a `Lexer` owns an
 * `Arena.Reader`, and each call of `Next` grows the reader's window over one
 * lexeme, classifies it and emits it with `advance_tail`. Every helper is
 * proved to consume exactly the lexeme `Lexemes.Scan` describes.
 */
module Lexer {
  import opened Wrappers
  import Data
  import Arena
  import opened Lexemes

  /** What one call of `next` does: end of input, a token, or the fatal crash on an unknown character. */
  datatype Step = Exhausted | Emitted(token: Token) | Fatal(c: char)

  /**
   * `op` is the longest operator of its family at `start` once it is a
   * prefix there and no other member of the family at least as long is.
   */
  lemma LongestIs(text: seq<char>, start: nat, op: Operator)
    requires start < |text| && op in Family(text[start]) && IsPrefix(op.spelling, text[start..])
    requires forall o :: o in Family(text[start]) && o != op && |o.spelling| >= |op.spelling| ==> !IsPrefix(o.spelling, text[start..])
    requires !(text[start] == '/' && At(text, start + 1) == Some('/'))
    ensures LongestOperator(text, start) == op
    ensures Scan(text, start) == Lexed(op.kind, |op.spelling|, None)
  {
    ScanOfOperator(text, start);
  }

  /** What `Scan` makes of a `+`, decided by the two characters after it. */
  lemma PlusFamilyScan(text: seq<char>, s: nat)
    requires s < |text| && text[s] == '+'
    ensures var p, p2 := At(text, s + 1), At(text, s + 2);
            Scan(text, s) ==
              if p == Some('+') && p2 == Some('=') then Lexed(PlusPlusEquals, 3, None)
              else if p == Some('+') then Lexed(PlusPlus, 2, None)
              else if p == Some('=') then Lexed(PlusEquals, 2, None)
              else Lexed(Plus, 1, None)
  {
    var p, p2 := At(text, s + 1), At(text, s + 2);
    if p == Some('+') && p2 == Some('=') {
      LongestIs(text, s, Operator("++=", PlusPlusEquals));
    } else if p == Some('+') {
      LongestIs(text, s, Operator("++", PlusPlus));
    } else if p == Some('=') {
      LongestIs(text, s, Operator("+=", PlusEquals));
    } else {
      LongestIs(text, s, Operator("+", Plus));
    }
  }

  /** What `Scan` makes of a `*`, decided by the two characters after it. */
  lemma MulFamilyScan(text: seq<char>, s: nat)
    requires s < |text| && text[s] == '*'
    ensures var p, p2 := At(text, s + 1), At(text, s + 2);
            Scan(text, s) ==
              if p == Some('*') && p2 == Some('=') then Lexed(MulMulEquals, 3, None)
              else if p == Some('*') then Lexed(MulMul, 2, None)
              else if p == Some('=') then Lexed(MulEquals, 2, None)
              else Lexed(Mul, 1, None)
  {
    var p, p2 := At(text, s + 1), At(text, s + 2);
    if p == Some('*') && p2 == Some('=') {
      LongestIs(text, s, Operator("**=", MulMulEquals));
    } else if p == Some('*') {
      LongestIs(text, s, Operator("**", MulMul));
    } else if p == Some('=') {
      LongestIs(text, s, Operator("*=", MulEquals));
    } else {
      LongestIs(text, s, Operator("*", Mul));
    }
  }

  /** What `Scan` makes of a `?`, decided by the two characters after it. */
  lemma QuestionFamilyScan(text: seq<char>, s: nat)
    requires s < |text| && text[s] == '?'
    ensures var p, p2 := At(text, s + 1), At(text, s + 2);
            Scan(text, s) ==
              if p == Some('?') && p2 == Some('=') then Lexed(DoubleQuestionEqual, 3, None)
              else if p == Some('?') then Lexed(DoubleQuestion, 2, None)
              else Lexed(Question, 1, None)
  {
    var p, p2 := At(text, s + 1), At(text, s + 2);
    if p == Some('?') && p2 == Some('=') {
      LongestIs(text, s, Operator("??=", DoubleQuestionEqual));
    } else if p == Some('?') {
      LongestIs(text, s, Operator("??", DoubleQuestion));
    } else {
      LongestIs(text, s, Operator("?", Question));
    }
  }

  /** One step of `LexFrom`: the token `Scan` classifies, then the tokens after it. */
  lemma LexFromStep(text: seq<char>, pos: nat)
    requires pos < |text| && Scan(text, pos).Lexed?
    ensures var s := Scan(text, pos);
            LexFrom(text, pos).tokens == [Token(s.kind, Arena.Span(pos, s.len), s.literal)] + LexFrom(text, pos + s.len).tokens &&
            LexFrom(text, pos).stop == LexFrom(text, pos + s.len).stop
  {
  }

  /** Where `LexFrom` yields nothing: at the end of the text, or at a character no rule accepts. */
  lemma LexFromStopsHere(text: seq<char>, pos: nat)
    requires pos == |text| || (pos < |text| && Scan(text, pos).Unexpected?)
    ensures LexFrom(text, pos) == Lexing([], pos)
  {
  }

  /**
   * One call of `Lexer.Next` advances `LexFrom`: when the outcome at `h` is
   * the one `Scan` gives, the tokens still to come from `h0` are either all
   * collected (at the end or at a fatal character) or one more token
   * followed by those from the new head.
   */
  lemma CollectStep(text: seq<char>, h0: nat, h: nat, tokens: seq<Token>, r: Step, cur: Arena.Span)
    requires h0 <= h <= |text|
    requires LexFrom(text, h0).tokens == tokens + LexFrom(text, h).tokens
    requires LexFrom(text, h0).stop == LexFrom(text, h).stop
    requires h == |text| ==> r == Exhausted
    requires h < |text| && Scan(text, h).Unexpected? ==> r == Fatal(Scan(text, h).c)
    requires h < |text| && Scan(text, h).Lexed? ==>
               var s := Scan(text, h);
               r == Emitted(Token(s.kind, Arena.Span(h, s.len), s.literal)) && cur == Arena.Span(h + s.len, 0)
    ensures r.Exhausted? ==> LexFrom(text, h0) == Lexing(tokens, |text|)
    ensures r.Fatal? ==> LexFrom(text, h0).tokens == tokens && LexFrom(text, h0).stop < |text|
    ensures r.Emitted? ==> h < cur.End() <= |text| &&
                           LexFrom(text, h0).tokens == tokens + [r.token] + LexFrom(text, cur.End()).tokens &&
                           LexFrom(text, h0).stop == LexFrom(text, cur.End()).stop
  {
    if h == |text| || Scan(text, h).Unexpected? {
      LexFromStopsHere(text, h);
    } else {
      LexFromStep(text, h);
    }
  }

  class Lexer {
    const reader: Arena.Reader
    /** How many times `err_int_too_big` was reported. */
    ghost var intTooBigReports: nat

    /** `Lexer::new`. */
    constructor (reader: Arena.Reader)
      ensures this.reader == reader && intTooBigReports == 0
    {
      this.reader := reader;
      intTooBigReports := 0;
    }

    /** Between tokens the reader's window is empty. */
    ghost predicate Valid()
      reads this, reader
    {
      reader.current.length == 0
    }

    /** The first character `c` of a lexeme has just been read into an empty window. */
    ghost predicate AfterFirst(c: char)
      reads this, reader, reader.arena
    {
      reader.current.length == 1 && reader.current.start < |reader.arena.chars| &&
      reader.arena.chars[reader.current.start] == c
    }

    /** The window starting at `start` now holds exactly the lexeme `Scan` classifies as `kind`. */
    ghost predicate Classified(start: nat, kind: TokenType, literal: Option<Data.PrimitiveValue>)
      reads this, reader, reader.arena
    {
      start < |reader.arena.chars| && reader.current.start == start &&
      Scan(reader.arena.chars, start) == Lexed(kind, reader.current.length, literal)
    }

    /** `ambiguous_plus`: `+`, `++`, `+=`, `++=`. */
    method AmbiguousPlus() returns (kind: TokenType, literal: Option<Data.PrimitiveValue>)
      requires AfterFirst('+')
      modifies reader
      ensures Classified(old(reader.current.start), kind, literal) && literal == None
    {
      ghost var text, s := reader.arena.chars, reader.current.start;
      literal := None;
      var p, p2 := reader.Peek(), reader.Peek2();
      assert p == At(text, s + 1) && p2 == At(text, s + 2);
      PlusFamilyScan(text, s);
      if p == Some('+') && p2 == Some('=') {
        var _ := reader.AdvanceHead();
        var _ := reader.AdvanceHead();
        kind := PlusPlusEquals;
      } else if p == Some('+') {
        var _ := reader.AdvanceHead();
        kind := PlusPlus;
      } else if p == Some('=') {
        var _ := reader.AdvanceHead();
        kind := PlusEquals;
      } else {
        kind := Plus;
      }
    }

    /** `ambiguous_mul`: `*`, `**`, `*=`, `**=`. */
    method AmbiguousMul() returns (kind: TokenType, literal: Option<Data.PrimitiveValue>)
      requires AfterFirst('*')
      modifies reader
      ensures Classified(old(reader.current.start), kind, literal) && literal == None
    {
      ghost var text, s := reader.arena.chars, reader.current.start;
      literal := None;
      var p, p2 := reader.Peek(), reader.Peek2();
      assert p == At(text, s + 1) && p2 == At(text, s + 2);
      MulFamilyScan(text, s);
      if p == Some('*') && p2 == Some('=') {
        var _ := reader.AdvanceHead();
        var _ := reader.AdvanceHead();
        kind := MulMulEquals;
      } else if p == Some('*') {
        var _ := reader.AdvanceHead();
        kind := MulMul;
      } else if p == Some('=') {
        var _ := reader.AdvanceHead();
        kind := MulEquals;
      } else {
        kind := Mul;
      }
    }

    /** `ambiguous_minus`: `-`, `-=`, `->`. */
    method AmbiguousMinus() returns (kind: TokenType, literal: Option<Data.PrimitiveValue>)
      requires AfterFirst('-')
      modifies reader
      ensures Classified(old(reader.current.start), kind, literal) && literal == None
    {
      ghost var text, s := reader.arena.chars, reader.current.start;
      literal := None;
      var p, p2 := reader.Peek(), reader.Peek2();
      if p == Some('=') {
        var _ := reader.AdvanceHead();
        kind := MinusEquals;
        LongestIs(text, s, Operator("-=", MinusEquals));
      } else if p == Some('>') {
        var _ := reader.AdvanceHead();
        kind := Arrow;
        LongestIs(text, s, Operator("->", Arrow));
      } else {
        kind := Minus;
        LongestIs(text, s, Operator("-", Minus));
      }
    }

    /** `ambiguous_slash`: `/`, `/=`, and a `//` comment up to the end of the line. */
    method AmbiguousSlash() returns (kind: TokenType, literal: Option<Data.PrimitiveValue>)
      requires AfterFirst('/')
      modifies reader
      ensures Classified(old(reader.current.start), kind, literal) && literal == None
    {
      ghost var text, s := reader.arena.chars, reader.current.start;
      literal := None;
      var p, p2 := reader.Peek(), reader.Peek2();
      if p == Some('=') {
        var _ := reader.AdvanceHead();
        kind := DivEquals;
        LongestIs(text, s, Operator("/=", DivEquals));
      } else if p == Some('/') {
        while reader.Peek() != Some('\n') && reader.Peek().Some?
          invariant reader.current.start == s && reader.current.length >= 1
          invariant reader.current.length + LineRun(text, s + reader.current.length) == 1 + LineRun(text, s + 1)
          decreases |text| - reader.HeadIdx()
        {
          var _ := reader.AdvanceHead();
        }
        kind := Ignore;
      } else {
        kind := Div;
        LongestIs(text, s, Operator("/", Div));
      }
    }

    /** `ambiguous_mod`: `%`, `%=`. */
    method AmbiguousMod() returns (kind: TokenType, literal: Option<Data.PrimitiveValue>)
      requires AfterFirst('%')
      modifies reader
      ensures Classified(old(reader.current.start), kind, literal) && literal == None
    {
      ghost var text, s := reader.arena.chars, reader.current.start;
      literal := None;
      var p, p2 := reader.Peek(), reader.Peek2();
      if p == Some('=') {
        var _ := reader.AdvanceHead();
        kind := ModEquals;
        LongestIs(text, s, Operator("%=", ModEquals));
      } else {
        kind := Mod;
        LongestIs(text, s, Operator("%", Mod));
      }
    }

    /** `ambiguous_less`: `<`, `<<`, `<=`. */
    method AmbiguousLess() returns (kind: TokenType, literal: Option<Data.PrimitiveValue>)
      requires AfterFirst('<')
      modifies reader
      ensures Classified(old(reader.current.start), kind, literal) && literal == None
    {
      ghost var text, s := reader.arena.chars, reader.current.start;
      literal := None;
      var p, p2 := reader.Peek(), reader.Peek2();
      if p == Some('<') {
        var _ := reader.AdvanceHead();
        kind := DoubleLess;
        LongestIs(text, s, Operator("<<", DoubleLess));
      } else if p == Some('=') {
        var _ := reader.AdvanceHead();
        kind := LessEquals;
        LongestIs(text, s, Operator("<=", LessEquals));
      } else {
        kind := Less;
        LongestIs(text, s, Operator("<", Less));
      }
    }

    /** `ambiguous_greater`: `>`, `>>`, `>=`. */
    method AmbiguousGreater() returns (kind: TokenType, literal: Option<Data.PrimitiveValue>)
      requires AfterFirst('>')
      modifies reader
      ensures Classified(old(reader.current.start), kind, literal) && literal == None
    {
      ghost var text, s := reader.arena.chars, reader.current.start;
      literal := None;
      var p, p2 := reader.Peek(), reader.Peek2();
      if p == Some('>') {
        var _ := reader.AdvanceHead();
        kind := DoubleGreater;
        LongestIs(text, s, Operator(">>", DoubleGreater));
      } else if p == Some('=') {
        var _ := reader.AdvanceHead();
        kind := GreaterEquals;
        LongestIs(text, s, Operator(">=", GreaterEquals));
      } else {
        kind := Greater;
        LongestIs(text, s, Operator(">", Greater));
      }
    }

    /** `ambiguous_colon`: `:`, `::`, `:=`. */
    method AmbiguousColon() returns (kind: TokenType, literal: Option<Data.PrimitiveValue>)
      requires AfterFirst(':')
      modifies reader
      ensures Classified(old(reader.current.start), kind, literal) && literal == None
    {
      ghost var text, s := reader.arena.chars, reader.current.start;
      literal := None;
      var p, p2 := reader.Peek(), reader.Peek2();
      if p == Some(':') {
        var _ := reader.AdvanceHead();
        kind := ColonColon;
        LongestIs(text, s, Operator("::", ColonColon));
      } else if p == Some('=') {
        var _ := reader.AdvanceHead();
        kind := ColonEquals;
        LongestIs(text, s, Operator(":=", ColonEquals));
      } else {
        kind := Colon;
        LongestIs(text, s, Operator(":", Colon));
      }
    }

    /** `ambiguous_bang`: `!`, `!=`. */
    method AmbiguousBang() returns (kind: TokenType, literal: Option<Data.PrimitiveValue>)
      requires AfterFirst('!')
      modifies reader
      ensures Classified(old(reader.current.start), kind, literal) && literal == None
    {
      ghost var text, s := reader.arena.chars, reader.current.start;
      literal := None;
      var p, p2 := reader.Peek(), reader.Peek2();
      if p == Some('=') {
        var _ := reader.AdvanceHead();
        kind := BangEquals;
        LongestIs(text, s, Operator("!=", BangEquals));
      } else {
        kind := Bang;
        LongestIs(text, s, Operator("!", Bang));
      }
    }

    /** `ambiguous_question`: `?`, `??`, `??=`. */
    method AmbiguousQuestion() returns (kind: TokenType, literal: Option<Data.PrimitiveValue>)
      requires AfterFirst('?')
      modifies reader
      ensures Classified(old(reader.current.start), kind, literal) && literal == None
    {
      ghost var text, s := reader.arena.chars, reader.current.start;
      literal := None;
      var p, p2 := reader.Peek(), reader.Peek2();
      assert p == At(text, s + 1) && p2 == At(text, s + 2);
      QuestionFamilyScan(text, s);
      if p == Some('?') && p2 == Some('=') {
        var _ := reader.AdvanceHead();
        var _ := reader.AdvanceHead();
        kind := DoubleQuestionEqual;
      } else if p == Some('?') {
        var _ := reader.AdvanceHead();
        kind := DoubleQuestion;
      } else {
        kind := Question;
      }
    }

    /** `ambiguous_equal`: `=`, `==`. */
    method AmbiguousEqual() returns (kind: TokenType, literal: Option<Data.PrimitiveValue>)
      requires AfterFirst('=')
      modifies reader
      ensures Classified(old(reader.current.start), kind, literal) && literal == None
    {
      ghost var text, s := reader.arena.chars, reader.current.start;
      literal := None;
      var p, p2 := reader.Peek(), reader.Peek2();
      if p == Some('=') {
        var _ := reader.AdvanceHead();
        kind := EqualEqual;
        LongestIs(text, s, Operator("==", EqualEqual));
      } else {
        kind := Equal;
        LongestIs(text, s, Operator("=", Equal));
      }
    }

    /** `ambiguous_dot`: `.`, `...`. */
    method AmbiguousDot() returns (kind: TokenType, literal: Option<Data.PrimitiveValue>)
      requires AfterFirst('.')
      modifies reader
      ensures Classified(old(reader.current.start), kind, literal) && literal == None
    {
      ghost var text, s := reader.arena.chars, reader.current.start;
      literal := None;
      var p, p2 := reader.Peek(), reader.Peek2();
      if p == Some('.') && p2 == Some('.') {
        var _ := reader.AdvanceHead();
        var _ := reader.AdvanceHead();
        kind := Ellipses;
        LongestIs(text, s, Operator("...", Ellipses));
      } else {
        kind := Dot;
        LongestIs(text, s, Operator(".", Dot));
      }
    }

    /** Take the run of digits and `_` at the head into the window. */
    method TakeDigits()
      modifies reader
      ensures reader.current.start == old(reader.current.start)
      ensures reader.HeadIdx() == old(reader.HeadIdx()) + DigitRun(reader.arena.chars, old(reader.HeadIdx()))
    {
      ghost var h0 := reader.HeadIdx();
      while reader.Peek().Some? && IsDigitOrSep(reader.Peek().value)
        invariant reader.current.start == old(reader.current.start) && reader.HeadIdx() >= h0
        invariant reader.HeadIdx() + DigitRun(reader.arena.chars, reader.HeadIdx()) == h0 + DigitRun(reader.arena.chars, h0)
        decreases |reader.arena.chars| - reader.HeadIdx()
      {
        var _ := reader.AdvanceHead();
      }
    }

    /**
     * The value of the integer lexeme in the window: `parse::<u64>` after the
     * separators are dropped; on overflow the error is reported and 0 is used.
     */
    method DecodeInt() returns (value: nat)
      requires reader.current.End() <= |reader.arena.chars|
      modifies this
      ensures value == IntLiteralValue(reader.arena.chars[reader.current.start..reader.current.End()])
      ensures intTooBigReports == old(intTooBigReports) +
                if ParseU64(reader.arena.chars[reader.current.start..reader.current.End()]).None? then 1 else 0
    {
      var lexeme := reader.current.Text(reader.arena.chars);
      Arena.TextInBounds(reader.current, reader.arena.chars);
      match ParseU64(lexeme) {
        case Some(v) =>
          value := v;
        case None =>
          intTooBigReports := intTooBigReports + 1;
          value := 0;
      }
    }

    /**
     * `lex_number_literal`: the digit run, then a fraction only when `'.'` is
     * followed by a digit or separator; an integer that does not fit in `u64`
     * is reported and carries 0.
     */
    method LexNumberLiteral() returns (kind: TokenType, literal: Option<Data.PrimitiveValue>)
      requires reader.current.length == 1 && reader.current.start < |reader.arena.chars|
      requires IsDigit(reader.arena.chars[reader.current.start])
      modifies this, reader
      ensures reader.current.start == old(reader.current.start)
      ensures ScanNumber(reader.arena.chars, reader.current.start) == Lexed(kind, reader.current.length, literal)
      ensures intTooBigReports == old(intTooBigReports) +
                if kind == IntLit && ParseU64(reader.arena.chars[reader.current.start..reader.current.End()]).None? then 1 else 0
    {
      ghost var text, s := reader.arena.chars, reader.current.start;

      // integer part
      TakeDigits();
      ghost var intEnd := reader.HeadIdx();
      assert intEnd == s + 1 + DigitRun(text, s + 1);

      // fractional part
      var p, p2 := reader.Peek(), reader.Peek2();
      if p == Some('.') && p2.Some? && IsDigitOrSep(p2.value) {
        assert At(text, intEnd) == Some('.') && intEnd + 1 < |text| && IsDigitOrSep(text[intEnd + 1]);
        var _ := reader.AdvanceHead();
        TakeDigits();
        kind, literal := FloatLit, Some(Data.Float);
        assert reader.current.length == intEnd + 1 + DigitRun(text, intEnd + 1) - s;
        assert ScanNumber(text, s) == Lexed(kind, reader.current.length, literal);
      } else {
        assert !(At(text, intEnd) == Some('.') && intEnd + 1 < |text| && IsDigitOrSep(text[intEnd + 1]));
        var value := DecodeInt();
        kind, literal := IntLit, Some(Data.Int(value));
        assert ScanNumber(text, s) == Lexed(kind, reader.current.length, literal);
      }
    }

    /**
     * `next`: read one character; at the end of the input return nothing and
     * change nothing; otherwise classify the lexeme it starts, emit it with
     * `advance_tail` and leave an empty window after it. A character no rule
     * accepts is the fatal `fatal_unreachable` crash.
     */
    method Next() returns (r: Step)
      requires Valid()
      modifies this, reader
      ensures var h, text := old(reader.HeadIdx()), reader.arena.chars;
              if h >= |text| then r == Exhausted && reader.current == old(reader.current)
              else match Scan(text, h)
                case Unexpected(c) => r == Fatal(c)
                case Lexed(kind, n, literal) =>
                  r == Emitted(Token(kind, Arena.Span(h, n), literal)) && reader.current == Arena.Span(h + n, 0)
      ensures r.Emitted? ==> Valid()
      ensures intTooBigReports == old(intTooBigReports) +
                if r.Emitted? && r.token.literal.Some? && r.token.literal.value.Int? &&
                   ParseU64(reader.arena.chars[r.token.lexeme.start..r.token.lexeme.End()]).None?
                then 1 else 0
    {
      ghost var text, h := reader.arena.chars, reader.HeadIdx();
      var next := reader.AdvanceHead();
      if next.None? {
        return Exhausted;
      }
      var c := next.value;
      var kind: TokenType, literal: Option<Data.PrimitiveValue> := Unknown, None;
      match c {
        // unambiguously single-character tokens
        case '\'' => kind := SingleQuote;
        case '"' => kind := DoubleQuote;
        case '^' => kind := Caret;
        case '(' => kind := LeftParen;
        case ')' => kind := RightParen;
        case '[' => kind := LeftBracket;
        case ']' => kind := RightBracket;
        case '{' => kind := LeftBrace;
        case '}' => kind := RightBrace;
        case ',' => kind := Comma;
        case ';' => kind := Semicolon;
        case '|' => kind := Pipe;
        // one or more character tokens
        case '+' => kind, literal := AmbiguousPlus();
        case '*' => kind, literal := AmbiguousMul();
        case '-' => kind, literal := AmbiguousMinus();
        case '%' => kind, literal := AmbiguousMod();
        case '<' => kind, literal := AmbiguousLess();
        case '>' => kind, literal := AmbiguousGreater();
        case ':' => kind, literal := AmbiguousColon();
        case '!' => kind, literal := AmbiguousBang();
        case '?' => kind, literal := AmbiguousQuestion();
        case '=' => kind, literal := AmbiguousEqual();
        case '.' => kind, literal := AmbiguousDot();
        // includes comments
        case '/' => kind, literal := AmbiguousSlash();
        // whitespace
        case ' ' => kind := Ignore;
        case '\n' => kind := Ignore;
        case '\r' => kind := Ignore;
        case '\t' => kind := Ignore;
        case _ =>
          if IsDigit(c) {
            ScanOfDigit(reader.arena.chars, h);
            kind, literal := LexNumberLiteral();
          } else {
            return Fatal(c);
          }
      }
      var lexeme := reader.AdvanceTail();
      r := Emitted(Token(kind, lexeme, literal));
    }

    /**
     * Iterating the lexer to the end (`collect`): the tokens `Next` emits
     * from the head on are exactly `LexFrom`'s, and iteration ends early,
     * at the fatal crash, exactly when `LexFrom` stops short of the end.
     */
    method Collect() returns (tokens: seq<Token>, fatal: bool)
      requires Valid() && reader.HeadIdx() <= |reader.arena.chars|
      modifies this, reader
      ensures var l := LexFrom(reader.arena.chars, old(reader.HeadIdx()));
              tokens == l.tokens && (fatal <==> l.stop < |reader.arena.chars|)
    {
      ghost var text, h0 := reader.arena.chars, reader.HeadIdx();
      tokens, fatal := [], false;
      while true
        invariant reader.arena.chars == text && Valid() && h0 <= reader.HeadIdx() <= |text|
        invariant LexFrom(text, h0).tokens == tokens + LexFrom(text, reader.HeadIdx()).tokens
        invariant LexFrom(text, h0).stop == LexFrom(text, reader.HeadIdx()).stop
        decreases |text| - reader.HeadIdx()
      {
        ghost var h := reader.HeadIdx();
        var r := Next();
        CollectStep(text, h0, h, tokens, r, reader.current);
        match r {
          case Exhausted =>
            return;
          case Fatal(_) =>
            fatal := true;
            return;
          case Emitted(t) =>
            tokens := tokens + [t];
        }
      }
    }
  }
}
