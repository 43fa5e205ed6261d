/**
 * The expression tree of drgns/src/parser/ast.rs, its `walk` over a visitor
 * and its `Display`. A visitor only observes the walk, so a walk is the
 * sequence of visitor calls it makes; `Display` is the string it writes,
 * with an integer literal written as its span's text in the arena `chars`.
 */
module Ast {
  import Arena

  datatype BinOperator = Pow

  datatype Expression =
    | Bin(be: BinExpression)
    | IntLiteral(span: Arena.Span)

  datatype BinExpression = BinExpression(lhs: Expression, op: BinOperator, rhs: Expression)

  /** One call on the visitor. */
  datatype Visit =
    | VisitExpression(e: Expression)
    | VisitBinExpression(be: BinExpression)
    | VisitBinOperator(op: BinOperator)

  /** `Expression::walk`: visit the expression, then walk its binary expression if it is one. */
  function Walk(e: Expression): (t: seq<Visit>)
    decreases e, 1
    ensures |t| >= 1 && t[0] == VisitExpression(e)
  {
    [VisitExpression(e)] + match e
      case Bin(be) => WalkBin(be)
      case IntLiteral(_) => []
  }

  /** `BinExpression::walk`: visit it, then walk the lhs, the operator and the rhs. */
  function WalkBin(be: BinExpression): (t: seq<Visit>)
    decreases be, 0
    ensures |t| >= 3 && t[0] == VisitBinExpression(be)
  {
    [VisitBinExpression(be)] + Walk(be.lhs) + WalkOperator(be.op) + Walk(be.rhs)
  }

  /** `BinOperator::walk`: visit the operator. */
  function WalkOperator(op: BinOperator): (t: seq<Visit>)
    ensures t == [VisitBinOperator(op)]
  {
    [VisitBinOperator(op)]
  }

  /** How many binary expressions the tree holds. */
  function BinNodes(e: Expression): nat
  {
    match e
    case Bin(be) => 1 + BinNodes(be.lhs) + BinNodes(be.rhs)
    case IntLiteral(_) => 0
  }

  /** Every expression node of the tree, with its multiplicity. */
  function Subexpressions(e: Expression): multiset<Expression>
  {
    multiset{e} + match e
      case Bin(be) => Subexpressions(be.lhs) + Subexpressions(be.rhs)
      case IntLiteral(_) => multiset{}
  }

  /** `s` lies strictly below `e` in the tree. */
  predicate ProperSub(s: Expression, e: Expression)
  {
    match e
    case Bin(be) => s == be.lhs || s == be.rhs || ProperSub(s, be.lhs) || ProperSub(s, be.rhs)
    case IntLiteral(_) => false
  }

  /** The expressions a trace visits, in order. */
  function ExprVisits(t: seq<Visit>): seq<Expression>
  {
    if t == [] then []
    else (if t[0].VisitExpression? then [t[0].e] else []) + ExprVisits(t[1..])
  }

  /** How many binary-expression and operator visits a trace holds. */
  function BinVisits(t: seq<Visit>): nat
  {
    if t == [] then 0 else (if t[0].VisitBinExpression? then 1 else 0) + BinVisits(t[1..])
  }

  function OperatorVisits(t: seq<Visit>): nat
  {
    if t == [] then 0 else (if t[0].VisitBinOperator? then 1 else 0) + OperatorVisits(t[1..])
  }

  lemma {:induction false} ExprVisitsAppend(a: seq<Visit>, b: seq<Visit>)
    ensures ExprVisits(a + b) == ExprVisits(a) + ExprVisits(b)
  {
    if a == [] {
      assert a + b == b;
    } else {
      assert (a + b)[0] == a[0] && (a + b)[1..] == a[1..] + b;
      ExprVisitsAppend(a[1..], b);
    }
  }

  lemma {:induction false} BinVisitsAppend(a: seq<Visit>, b: seq<Visit>)
    ensures BinVisits(a + b) == BinVisits(a) + BinVisits(b)
  {
    if a == [] {
      assert a + b == b;
    } else {
      assert (a + b)[0] == a[0] && (a + b)[1..] == a[1..] + b;
      BinVisitsAppend(a[1..], b);
    }
  }

  lemma {:induction false} OperatorVisitsAppend(a: seq<Visit>, b: seq<Visit>)
    ensures OperatorVisits(a + b) == OperatorVisits(a) + OperatorVisits(b)
  {
    if a == [] {
      assert a + b == b;
    } else {
      assert (a + b)[0] == a[0] && (a + b)[1..] == a[1..] + b;
      OperatorVisitsAppend(a[1..], b);
    }
  }

  /** The walk of a binary node: the node, its binary expression, the lhs walk, the operator, the rhs walk. */
  lemma WalkOfBin(be: BinExpression)
    ensures Walk(Bin(be)) == [VisitExpression(Bin(be))] + ([VisitBinExpression(be)] + (Walk(be.lhs) + ([VisitBinOperator(be.op)] + Walk(be.rhs))))
  {
  }

  lemma Singleton(v: Visit)
    ensures ExprVisits([v]) == if v.VisitExpression? then [v.e] else []
    ensures BinVisits([v]) == (if v.VisitBinExpression? then 1 else 0)
    ensures OperatorVisits([v]) == (if v.VisitBinOperator? then 1 else 0)
  {
    assert [v][1..] == [];
  }

  /** A visit in front of a trace adds its expression, if it has one, in front of the trace's. */
  lemma ExprVisitsCons(v: Visit, t: seq<Visit>)
    ensures ExprVisits([v] + t) == (if v.VisitExpression? then [v.e] else []) + ExprVisits(t)
  {
    Singleton(v);
    ExprVisitsAppend([v], t);
  }

  /** The expressions visited in a trace shaped like a binary node's walk, whatever its parts are. */
  lemma ExprVisitsOfParts(x: Expression, be: BinExpression, l: seq<Visit>, op: BinOperator, r: seq<Visit>)
    ensures ExprVisits([VisitExpression(x)] + ([VisitBinExpression(be)] + (l + ([VisitBinOperator(op)] + r))))
            == [x] + ExprVisits(l) + ExprVisits(r)
  {
    var t1 := [VisitBinOperator(op)] + r;
    assert ExprVisits(t1) == ExprVisits(r) by {
      ExprVisitsCons(VisitBinOperator(op), r);
    }
    var t2 := l + t1;
    assert ExprVisits(t2) == ExprVisits(l) + ExprVisits(r) by {
      ExprVisitsAppend(l, t1);
    }
    var t3 := [VisitBinExpression(be)] + t2;
    assert ExprVisits(t3) == ExprVisits(t2) by {
      ExprVisitsCons(VisitBinExpression(be), t2);
    }
    ExprVisitsCons(VisitExpression(x), t3);
  }

  /** The binary-expression visits in a trace shaped like a binary node's walk. */
  lemma BinVisitsOfParts(x: Expression, be: BinExpression, l: seq<Visit>, op: BinOperator, r: seq<Visit>)
    ensures BinVisits([VisitExpression(x)] + ([VisitBinExpression(be)] + (l + ([VisitBinOperator(op)] + r))))
            == 1 + BinVisits(l) + BinVisits(r)
  {
    var a, b, o := VisitExpression(x), VisitBinExpression(be), VisitBinOperator(op);
    Singleton(a);
    Singleton(b);
    Singleton(o);
    BinVisitsAppend([o], r);
    BinVisitsAppend(l, [o] + r);
    BinVisitsAppend([b], l + ([o] + r));
    BinVisitsAppend([a], [b] + (l + ([o] + r)));
  }

  /** The operator visits in a trace shaped like a binary node's walk. */
  lemma OperatorVisitsOfParts(x: Expression, be: BinExpression, l: seq<Visit>, op: BinOperator, r: seq<Visit>)
    ensures OperatorVisits([VisitExpression(x)] + ([VisitBinExpression(be)] + (l + ([VisitBinOperator(op)] + r))))
            == 1 + OperatorVisits(l) + OperatorVisits(r)
  {
    var a, b, o := VisitExpression(x), VisitBinExpression(be), VisitBinOperator(op);
    Singleton(a);
    Singleton(b);
    Singleton(o);
    OperatorVisitsAppend([o], r);
    OperatorVisitsAppend(l, [o] + r);
    OperatorVisitsAppend([b], l + ([o] + r));
    OperatorVisitsAppend([a], [b] + (l + ([o] + r)));
  }

  /** The visits in the walk of a binary node, in terms of the walks of its operands. */
  lemma VisitsOfBin(be: BinExpression)
    ensures ExprVisits(Walk(Bin(be))) == [Bin(be)] + ExprVisits(Walk(be.lhs)) + ExprVisits(Walk(be.rhs))
    ensures BinVisits(Walk(Bin(be))) == 1 + BinVisits(Walk(be.lhs)) + BinVisits(Walk(be.rhs))
    ensures OperatorVisits(Walk(Bin(be))) == 1 + OperatorVisits(Walk(be.lhs)) + OperatorVisits(Walk(be.rhs))
  {
    WalkOfBin(be);
    ExprVisitsOfParts(Bin(be), be, Walk(be.lhs), be.op, Walk(be.rhs));
    BinVisitsOfParts(Bin(be), be, Walk(be.lhs), be.op, Walk(be.rhs));
    OperatorVisitsOfParts(Bin(be), be, Walk(be.lhs), be.op, Walk(be.rhs));
  }

  /** The walk visits every expression node of the tree exactly once. */
  lemma {:induction false} WalkVisitsEachNodeOnce(e: Expression)
    ensures multiset(ExprVisits(Walk(e))) == Subexpressions(e)
  {
    match e
    case Bin(be) =>
      VisitsOfBin(be);
      WalkVisitsEachNodeOnce(be.lhs);
      WalkVisitsEachNodeOnce(be.rhs);
      var l, r := ExprVisits(Walk(be.lhs)), ExprVisits(Walk(be.rhs));
      assert multiset([e] + l + r) == multiset{e} + multiset(l) + multiset(r);
    case IntLiteral(_) =>
      assert Walk(e) == [VisitExpression(e)];
      Singleton(VisitExpression(e));
  }

  /** The walk makes one binary-expression visit and one operator visit per binary node. */
  lemma {:induction false} WalkVisitsEachOperatorOnce(e: Expression)
    ensures BinVisits(Walk(e)) == BinNodes(e) && OperatorVisits(Walk(e)) == BinNodes(e)
  {
    match e
    case Bin(be) =>
      VisitsOfBin(be);
      WalkVisitsEachOperatorOnce(be.lhs);
      WalkVisitsEachOperatorOnce(be.rhs);
    case IntLiteral(_) =>
      assert Walk(e) == [VisitExpression(e)];
      Singleton(VisitExpression(e));
  }

  /**
   * Sequences headed by the operands of `be`, followed only by expressions
   * below them, hold only expressions below `Bin(be)`.
   */
  lemma BelowOperands(be: BinExpression, l: seq<Expression>, r: seq<Expression>)
    requires |l| >= 1 && l[0] == be.lhs && forall s :: s in l[1..] ==> ProperSub(s, be.lhs)
    requires |r| >= 1 && r[0] == be.rhs && forall s :: s in r[1..] ==> ProperSub(s, be.rhs)
    ensures forall s :: s in l + r ==> ProperSub(s, Bin(be))
  {
    forall s | s in l + r
      ensures ProperSub(s, Bin(be))
    {
      if s in l {
        assert s == l[0] || s in l[1..] by {
          assert l == [l[0]] + l[1..];
        }
      } else {
        assert s == r[0] || s in r[1..] by {
          assert r == [r[0]] + r[1..];
        }
      }
    }
  }

  /**
   * The walk is pre-order: it visits `e` first, and every expression it
   * visits afterwards lies below `e`.
   */
  lemma {:induction false} WalkIsPreOrder(e: Expression)
    ensures ExprVisits(Walk(e))[0] == e
    ensures forall s :: s in ExprVisits(Walk(e))[1..] ==> ProperSub(s, e)
  {
    match e
    case Bin(be) =>
      VisitsOfBin(be);
      WalkIsPreOrder(be.lhs);
      WalkIsPreOrder(be.rhs);
      var l, r := ExprVisits(Walk(be.lhs)), ExprVisits(Walk(be.rhs));
      BelowOperands(be, l, r);
      assert ExprVisits(Walk(e))[1..] == l + r;
    case IntLiteral(_) =>
      assert ExprVisits(Walk(e)) == [e];
  }

  /** `Display for BinOperator`. */
  function ShowOperator(op: BinOperator): (s: string)
    ensures s == "**"
  {
    match op
    case Pow => "**"
  }

  /** `Display for Expression`: a literal is its text, a binary expression is prefix and parenthesised. */
  function Show(e: Expression, chars: seq<char>): (s: string)
    decreases e, 1
    ensures e.IntLiteral? ==> s == e.span.Text(chars)
    ensures e.Bin? ==> |s| >= 2 && s[0] == '(' && s[|s| - 1] == ')'
  {
    match e
    case Bin(be) => ShowBin(be, chars)
    case IntLiteral(span) => span.Text(chars)
  }

  /** `Display for BinExpression`: `"(" op " " lhs " " rhs ")"`, the operator first. */
  function ShowBin(be: BinExpression, chars: seq<char>): (s: string)
    decreases be, 0
    ensures |s| >= 6 && s[..4] == "(" + ShowOperator(be.op) + " " && s[|s| - 1] == ')'
  {
    "(" + ShowOperator(be.op) + " " + Show(be.lhs, chars) + " " + Show(be.rhs, chars) + ")"
  }

  function CountChar(s: string, c: char): nat
  {
    if s == [] then 0 else (if s[0] == c then 1 else 0) + CountChar(s[1..], c)
  }

  lemma {:induction false} CountCharAppend(a: string, b: string, c: char)
    ensures CountChar(a + b, c) == CountChar(a, c) + CountChar(b, c)
  {
    if a == [] {
      assert a + b == b;
    } else {
      assert (a + b)[1..] == a[1..] + b;
      CountCharAppend(a[1..], b, c);
    }
  }

  /** No literal of the tree has `c` in its text. */
  predicate LiteralsWithout(e: Expression, chars: seq<char>, c: char)
  {
    match e
    case Bin(be) => LiteralsWithout(be.lhs, chars, c) && LiteralsWithout(be.rhs, chars, c)
    case IntLiteral(span) => c !in span.Text(chars)
  }

  lemma {:induction false} CountAbsent(s: string, c: char)
    requires c !in s
    ensures CountChar(s, c) == 0
  {
    if s != [] {
      assert s == [s[0]] + s[1..];
      CountAbsent(s[1..], c);
    }
  }

  /** The parentheses in a string shaped like a binary expression's display, whatever its operands are. */
  lemma ParensOfParts(l: string, r: string, c: char)
    requires c == '(' || c == ')'
    ensures CountChar("(" + "**" + " " + l + " " + r + ")", c) == 1 + CountChar(l, c) + CountChar(r, c)
  {
    var head := "(" + "**" + " ";
    CountCharAppend(head + l + " " + r, ")", c);
    CountCharAppend(head + l + " ", r, c);
    CountCharAppend(head + l, " ", c);
    CountCharAppend(head, l, c);
    CountCharAppend("(" + "**", " ", c);
    CountCharAppend("(", "**", c);
    CountAbsent("**", c);
    CountAbsent(" ", c);
    assert CountChar("(", c) == (if c == '(' then 1 else 0) by { assert "("[1..] == []; }
    assert CountChar(")", c) == (if c == ')' then 1 else 0) by { assert ")"[1..] == []; }
  }

  /**
   * When no literal's text holds a parenthesis, the display of a tree holds
   * one `(` and one `)` per binary expression: it is fully parenthesised.
   */
  lemma {:induction false} ShowIsParenthesised(e: Expression, chars: seq<char>)
    requires LiteralsWithout(e, chars, '(') && LiteralsWithout(e, chars, ')')
    ensures CountChar(Show(e, chars), '(') == BinNodes(e)
    ensures CountChar(Show(e, chars), ')') == BinNodes(e)
  {
    match e
    case Bin(be) =>
      ShowIsParenthesised(be.lhs, chars);
      ShowIsParenthesised(be.rhs, chars);
      var l, r := Show(be.lhs, chars), Show(be.rhs, chars);
      assert Show(e, chars) == "(" + "**" + " " + l + " " + r + ")";
      ParensOfParts(l, r, '(');
      ParensOfParts(l, r, ')');
    case IntLiteral(span) =>
      CountAbsent(span.Text(chars), '(');
      CountAbsent(span.Text(chars), ')');
  }
}
