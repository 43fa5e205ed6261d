/**
 * The parser fragment of drgns/src/parser.rs: `match_*` functions over an
 * itertools `MultiPeek` of the lexer's tokens. The token stream is the
 * sequence of tokens the lexer yields; the `MultiPeek` is its peek cursor,
 * `peekIndex`. A `peek` yields the token at the cursor and moves it on by
 * one, or yields `None` at the end of the stream and leaves it; `reset_peek`
 * returns the cursor to 0. Matching never takes a token from the stream.
 */
module Parser {
  import opened Wrappers
  import Lexemes

  type Token = Lexemes.Token
  type TokenType = Lexemes.TokenType

  /** `ParseTreeNodeType`. */
  datatype ParseTreeNodeType =
    | Neg
    | UnExpression(op: ParseTreeNodeType, factor: ParseTreeNodeType)
    | IntLiteral

  /** The type of the token at `i`, if the stream is that long. */
  function KindAt(tokens: seq<Token>, i: nat): (r: Option<TokenType>)
    ensures r.Some? <==> i < |tokens|
    ensures r.Some? ==> r.value == tokens[i].tokenType
  {
    if i < |tokens| then Some(tokens[i].tokenType) else None
  }

  class Parser {
    /** The tokens the lexer yields, none of which the matchers consume. */
    const tokens: seq<Token>
    /** The `MultiPeek` peek cursor, relative to the unconsumed stream. */
    var peekIndex: nat

    /** `Parser::new`: the peek cursor at the start of the stream. */
    constructor (tokens: seq<Token>)
      ensures this.tokens == tokens && peekIndex == 0 && Valid()
    {
      this.tokens := tokens;
      peekIndex := 0;
    }

    /** The cursor only moves past tokens it has peeked. */
    ghost predicate Valid()
      reads this
    {
      peekIndex <= |tokens|
    }

    /**
     * `match_one(tt)`: peek one token; if it has type `tt` return it and keep
     * the cursor past it, otherwise (another type, or the end) reset the
     * cursor and return `None`.
     */
    method MatchOne(tt: TokenType) returns (r: Option<Token>)
      requires Valid()
      modifies this
      ensures Valid()
      ensures r.Some? <==> KindAt(tokens, old(peekIndex)) == Some(tt)
      ensures r.Some? ==> r.value == tokens[old(peekIndex)] && peekIndex == old(peekIndex) + 1
      ensures r.None? ==> peekIndex == 0
    {
      if peekIndex < |tokens| {
        var t := tokens[peekIndex];
        peekIndex := peekIndex + 1;
        if t.tokenType == tt {
          return Some(t);
        }
      }
      peekIndex := 0;
      r := None;
    }

    /** `match_int_literal`: an `IntLiteral` node if the next peeked token is an `IntLit`. */
    method MatchIntLiteral() returns (r: Option<ParseTreeNodeType>)
      requires Valid()
      modifies this
      ensures Valid()
      ensures r.Some? <==> KindAt(tokens, old(peekIndex)) == Some(Lexemes.IntLit)
      ensures r.Some? ==> r.value == IntLiteral && peekIndex == old(peekIndex) + 1
      ensures r.None? ==> peekIndex == 0
    {
      var t := MatchOne(Lexemes.IntLit);
      if t.None? {
        return None;
      }
      r := Some(IntLiteral);
    }

    /**
     * `match_un_expression`: a `Minus` then an `IntLit` make the node
     * `UnExpression { Neg, IntLiteral }`; any other pair resets the cursor,
     * giving back the `Minus` too.
     */
    method MatchUnExpression() returns (r: Option<ParseTreeNodeType>)
      requires Valid()
      modifies this
      ensures Valid()
      ensures r.Some? <==> KindAt(tokens, old(peekIndex)) == Some(Lexemes.Minus) &&
                           KindAt(tokens, old(peekIndex) + 1) == Some(Lexemes.IntLit)
      ensures r.Some? ==> r.value == UnExpression(Neg, IntLiteral) && peekIndex == old(peekIndex) + 2
      ensures r.None? ==> peekIndex == 0
    {
      var minus := MatchOne(Lexemes.Minus);
      if minus.None? {
        return None;
      }
      var factor := MatchIntLiteral();
      if factor.None? {
        return None;
      }
      r := Some(UnExpression(Neg, factor.value));
    }
  }

  /**
   * Two successful `match_one` calls peek two successive tokens; a failed one
   * leaves the cursor where a fresh parser would have it.
   */
  method MatchTwo(p: Parser, first: TokenType, second: TokenType) returns (a: Option<Token>, b: Option<Token>)
    requires p.Valid()
    modifies p
    ensures a.Some? ==> (b.Some? <==> KindAt(p.tokens, old(p.peekIndex) + 1) == Some(second))
    ensures a.Some? && b.Some? ==> old(p.peekIndex) + 1 < |p.tokens| &&
                                   a.value == p.tokens[old(p.peekIndex)] && b.value == p.tokens[old(p.peekIndex) + 1]
    ensures a.None? ==> b == if p.tokens != [] && p.tokens[0].tokenType == second then Some(p.tokens[0]) else None
  {
    a := p.MatchOne(first);
    b := p.MatchOne(second);
  }
}
