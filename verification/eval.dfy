/**
 * The stack evaluator of drgns/src/eval.rs: `ExpressionEval` is a visitor
 * over a `Vec<Value>` used as a stack, whose top is the end of the
 * sequence. Operator visits pop their operands (the first pop is the left
 * operand) and push the result; every `unwrap` of a pop, and of an
 * operation's result, is a precondition.
 */
module Eval {
  import opened Wrappers
  import opened Values

  /** The operators the evaluator's visitor distinguishes. */
  datatype BinOperator = Pow | Mul | Div | Mod | Add | Sub
  datatype UnOperator = Neg
  datatype LitExpression = LitExpression(v: Value)

  /** The operation `op` runs on the left operand `x` and the right operand `y` does not panic. */
  predicate Defined(op: BinOperator, x: Value, y: Value)
  {
    match op
    case Pow => InI64(Power(x.i, AsU32(y.i)))
    case Mul => InI64(x.i * y.i)
    case Div => y.i != 0 && !(x.i == I64_MIN && y.i == -1)
    case Mod => y.i != 0 && !(x.i == I64_MIN && y.i == -1)
    case Add => InI64(x.i + y.i)
    case Sub => InI64(x.i - y.i)
  }

  /** The value `op` computes from `x` and `y`: the `Value` method the visitor calls. */
  function Apply(op: BinOperator, x: Value, y: Value): Value
    requires Defined(op, x, y)
  {
    match op
    case Pow => Values.Pow(x, y).value
    case Mul => Values.Mul(x, y).value
    case Div => Values.Div(x, y).value
    case Mod => Values.Rem(x, y).value
    case Add => Values.Add(x, y).value
    case Sub => Values.Sub(x, y).value
  }

  class ExpressionEval {
    /** The value stack; its last element is the top. */
    var stack: seq<Value>

    /** `ExpressionEval::new`: an empty stack. */
    constructor ()
      ensures stack == []
    {
      stack := [];
    }

    /** `visit_expression`: nothing to do. */
    method VisitExpression()
      ensures stack == old(stack)
    {
    }

    /** `visit_bin_expression`: nothing to do. */
    method VisitBinExpression()
      ensures stack == old(stack)
    {
    }

    /** `visit_un_expression`: nothing to do. */
    method VisitUnExpression()
      ensures stack == old(stack)
    {
    }

    /**
     * `visit_bin_operator`: pop `x` (the top) and `y` (below it), push
     * `x op y`. The stack shrinks by one and nothing below the operands
     * changes.
     */
    method VisitBinOperator(op: BinOperator)
      requires |stack| >= 2
      requires Defined(op, stack[|stack| - 1], stack[|stack| - 2])
      modifies this
      ensures |stack| == |old(stack)| - 1
      ensures stack[..|stack| - 1] == old(stack)[..|old(stack)| - 2]
      ensures stack[|stack| - 1] == Apply(op, old(stack)[|old(stack)| - 1], old(stack)[|old(stack)| - 2])
    {
      var x := stack[|stack| - 1];
      stack := stack[..|stack| - 1];
      var y := stack[|stack| - 1];
      stack := stack[..|stack| - 1];
      var r: Option<Value>;
      match op {
        case Pow => r := Values.Pow(x, y);
        case Mul => r := Values.Mul(x, y);
        case Div => r := Values.Div(x, y);
        case Mod => r := Values.Rem(x, y);
        case Add => r := Values.Add(x, y);
        case Sub => r := Values.Sub(x, y);
      }
      stack := stack + [r.value];
    }

    /** `visit_un_operator`: replace the top with its negation; the length is kept. */
    method VisitUnOperator(op: UnOperator)
      requires |stack| >= 1 && stack[|stack| - 1].i != I64_MIN
      modifies this
      ensures |stack| == |old(stack)|
      ensures stack[..|stack| - 1] == old(stack)[..|old(stack)| - 1]
      ensures stack[|stack| - 1].i == -old(stack)[|old(stack)| - 1].i
    {
      var x := stack[|stack| - 1];
      stack := stack[..|stack| - 1];
      stack := stack + [Values.Neg(x).value];
    }

    /** `visit_lit_expression`: push the literal's value. */
    method VisitLitExpression(le: LitExpression)
      modifies this
      ensures stack == old(stack) + [le.v]
    {
      stack := stack + [le.v];
    }
  }

  /**
   * The first value popped is the left operand: pushing 2 then 7 and
   * visiting `Sub` leaves `7 - 2`, and visiting `Div` instead leaves `7 / 2`.
   */
  method TopIsLeftOperand() returns (difference: seq<Value>, quotient: seq<Value>)
    ensures difference == [Int(5)] && quotient == [Int(3)]
  {
    var e := new ExpressionEval();
    e.VisitLitExpression(LitExpression(Int(2)));
    e.VisitLitExpression(LitExpression(Int(7)));
    e.VisitBinOperator(Sub);
    difference := e.stack;
    var f := new ExpressionEval();
    f.VisitLitExpression(LitExpression(Int(2)));
    f.VisitLitExpression(LitExpression(Int(7)));
    f.VisitBinOperator(Div);
    quotient := f.stack;
    assert Values.Div(Int(7), Int(2)).value.i == 3;
  }

  /** Negating the top of `[4, -9]` gives `[4, 9]`: only the top changes. */
  method NegatesTop() returns (s: seq<Value>)
    ensures s == [Int(4), Int(9)]
  {
    var e := new ExpressionEval();
    e.VisitLitExpression(LitExpression(Int(4)));
    e.VisitLitExpression(LitExpression(Int(-9)));
    e.VisitUnOperator(Neg);
    s := e.stack;
  }
}
