/**
 * The runtime values of drgns/src/values.rs: an `i64` integer and its
 * arithmetic. Rust's `i64` operators panic on overflow (in a debug build) and
 * on a zero divisor (the `todo!` branches), so each operation requires that
 * neither happens; under that requirement every operation on two integers
 * returns `Some`. Rust's `/` rounds toward zero and its `%` takes the sign of
 * the dividend, which `TruncDiv` and `TruncRem` spell out over Dafny's
 * Euclidean operators.
 */
module Values {
  import opened Wrappers

  const I64_MIN: int := -0x8000_0000_0000_0000
  const I64_MAX: int := 0x7fff_ffff_ffff_ffff
  const U32_LIMIT: int := 0x1_0000_0000

  predicate InI64(x: int) { I64_MIN <= x <= I64_MAX }

  type i64 = x: int | I64_MIN <= x <= I64_MAX

  datatype Value = Int(i: i64)

  function Abs(x: int): nat { if x < 0 then -x else x }

  /** The magnitude `q` with a sign. */
  function Signed(q: nat, negative: bool): (r: int)
    ensures Abs(r) == q
    ensures r != 0 ==> (r < 0 <==> negative)
  {
    if negative then -(q as int) else q
  }

  /** The quotient of two magnitudes. */
  function Quotient(a: nat, b: nat): nat
    requires b != 0
  {
    a / b
  }

  /** Integer division rounding toward zero, as Rust's `/` on integers. */
  function TruncDiv(x: int, y: int): int
    requires y != 0
  {
    Signed(Quotient(Abs(x), Abs(y)), (x < 0) != (y < 0))
  }

  /** The remainder of `TruncDiv`, as Rust's `%` on integers. */
  function TruncRem(x: int, y: int): int
    requires y != 0
  {
    x - y * TruncDiv(x, y)
  }

  /** Euclidean division of the magnitudes: the quotient and remainder `TruncDiv` is built from. */
  lemma MagnitudeDivision(a: nat, b: nat)
    requires b != 0
    ensures a == b * (a / b) + a % b && 0 <= a % b < b
    ensures (a / b) * b <= a < (a / b + 1) * b
    ensures a / b <= a
  {
    var q := a / b;
    assert (q + 1) * b == q * b + b;
    assert q * b >= q by {
      MulAtLeast(q, b);
    }
  }

  lemma MulLe(q: nat, a: nat, b: nat)
    requires a <= b
    ensures q * a <= q * b
  {
    assert q * b == q * a + q * (b - a);
  }

  lemma MulAtLeast(q: nat, b: nat)
    requires b >= 1
    ensures q * b >= q
  {
    assert q * b == q * (b - 1) + q;
  }

  /** Multiplying numbers with signs: the product's sign is the agreement of the signs. */
  lemma SignedProduct(sy: bool, sd: bool, b: int, q: int)
    ensures (if sy then -b else b) * (if sd then -q else q) == if sy == sd then b * q else -(b * q)
  {
  }

  /** `TruncDiv` is the magnitude quotient carrying the sign of `x * y`. */
  lemma {:induction false} TruncProduct(x: int, y: int)
    requires y != 0
    ensures var q := Abs(x) / Abs(y);
            y * TruncDiv(x, y) == if x < 0 then -(Abs(y) * q) else Abs(y) * q
  {
    var b: int, q: int := Abs(y), Abs(x) / Abs(y);
    var sy, sd := y < 0, (x < 0) != (y < 0);
    assert y == if sy then -b else b;
    assert TruncDiv(x, y) == if sd then -q else q by {
      assert TruncDiv(x, y) == Signed(q, sd);
    }
    SignedProduct(sy, sd, b, q);
  }

  /** `TruncRem` is the magnitude remainder carrying the sign of `x`. */
  lemma {:induction false} TruncRemMagnitude(x: int, y: int)
    requires y != 0
    ensures TruncRem(x, y) == if x < 0 then -(Abs(x) % Abs(y)) else Abs(x) % Abs(y)
  {
    MagnitudeDivision(Abs(x), Abs(y));
    TruncProduct(x, y);
  }

  /**
   * `TruncDiv` and `TruncRem` are Rust's quotient and remainder: they
   * recompose `x`, the remainder is smaller than the divisor and has the sign
   * of the dividend, and the quotient's size is that of `x` divided by that
   * of `y`, rounded down.
   */
  lemma {:induction false} TruncDivRem(x: int, y: int)
    requires y != 0
    ensures x == TruncDiv(x, y) * y + TruncRem(x, y)
    ensures Abs(TruncRem(x, y)) < Abs(y)
    ensures x >= 0 ==> TruncRem(x, y) >= 0
    ensures x < 0 ==> TruncRem(x, y) <= 0
    ensures Abs(TruncDiv(x, y)) <= Abs(x)
    ensures Abs(TruncDiv(x, y)) * Abs(y) <= Abs(x) < (Abs(TruncDiv(x, y)) + 1) * Abs(y)
  {
    MagnitudeDivision(Abs(x), Abs(y));
    TruncRemMagnitude(x, y);
  }

  /** `-7 / 2` and `-7 % 2` are `-3` and `-1` in Rust; Dafny's own operators give `-4` and `1`. */
  lemma TruncatesTowardZero()
    ensures TruncDiv(-7, 2) == -3 && TruncRem(-7, 2) == -1
    ensures -7 / 2 == -4 && -7 % 2 == 1
  {
  }

  /** The only quotient of two `i64`s outside `i64` is `i64::MIN / -1`. */
  lemma {:induction false} TruncDivFits(x: i64, y: i64)
    requires y != 0 && !(x == I64_MIN && y == -1)
    ensures InI64(TruncDiv(x, y)) && InI64(TruncRem(x, y))
  {
    TruncDivRem(x, y);
    var q := Abs(TruncDiv(x, y));
    if Abs(y) == 1 {
      assert TruncDiv(x, y) == if y == 1 then x else -x;
    } else {
      MulLe(q, 2, Abs(y));
      assert q * 2 <= Abs(x);
    }
  }

  /** `x` to the power `n`. */
  function Power(x: int, n: nat): int
  {
    if n == 0 then 1 else x * Power(x, n - 1)
  }

  /** `y as u32`: the low 32 bits of the two's-complement `y`. */
  function AsU32(y: int): (n: nat)
    ensures n < U32_LIMIT
    ensures 0 <= y < U32_LIMIT ==> n == y
  {
    y % U32_LIMIT
  }

  /** A negative exponent is not rejected: `-1 as u32` is `u32::MAX`. */
  lemma NegativeExponentWraps()
    ensures AsU32(-1) == U32_LIMIT - 1
    ensures AsU32(-U32_LIMIT + 3) == 3
  {
  }

  /** `neg`: the negation, which overflows only for `i64::MIN`. */
  function Neg(v: Value): (r: Option<Value>)
    requires v.i != I64_MIN
    ensures r.Some? && r.value.i + v.i == 0
  {
    Some(Int(-v.i))
  }

  /** `pow`: `x` to the power `y as u32`, which must fit an `i64`. */
  function Pow(x: Value, y: Value): (r: Option<Value>)
    requires InI64(Power(x.i, AsU32(y.i)))
    ensures r.Some? && r.value.i == Power(x.i, AsU32(y.i))
    ensures r.Some? && 0 <= y.i < U32_LIMIT ==> r.value.i == Power(x.i, y.i)
  {
    Some(Int(Power(x.i, AsU32(y.i))))
  }

  /** `mul`: the product, which must fit an `i64`. */
  function Mul(x: Value, y: Value): (r: Option<Value>)
    requires InI64(x.i * y.i)
    ensures r.Some? && r.value.i == x.i * y.i
  {
    Some(Int(x.i * y.i))
  }

  /** `add`: the sum, which must fit an `i64`. */
  function Add(x: Value, y: Value): (r: Option<Value>)
    requires InI64(x.i + y.i)
    ensures r.Some? && r.value.i == x.i + y.i
  {
    Some(Int(x.i + y.i))
  }

  /** `sub`: the difference, which must fit an `i64`. */
  function Sub(x: Value, y: Value): (r: Option<Value>)
    requires InI64(x.i - y.i)
    ensures r.Some? && r.value.i == x.i - y.i
  {
    Some(Int(x.i - y.i))
  }

  /** `div`: the quotient rounded toward zero; a zero divisor and `MIN / -1` panic. */
  function Div(x: Value, y: Value): (r: Option<Value>)
    requires y.i != 0 && !(x.i == I64_MIN && y.i == -1)
    ensures r.Some?
    ensures Abs(r.value.i) * Abs(y.i) <= Abs(x.i) < (Abs(r.value.i) + 1) * Abs(y.i)
    ensures r.value.i != 0 ==> (r.value.i < 0 <==> (x.i < 0) != (y.i < 0))
  {
    TruncDivFits(x.i, y.i);
    TruncDivRem(x.i, y.i);
    Some(Int(TruncDiv(x.i, y.i)))
  }

  /** `rem`: the remainder with the sign of the dividend; a zero divisor and `MIN % -1` panic. */
  function Rem(x: Value, y: Value): (r: Option<Value>)
    requires y.i != 0 && !(x.i == I64_MIN && y.i == -1)
    ensures r.Some? && Abs(r.value.i) < Abs(y.i)
    ensures x.i >= 0 ==> r.value.i >= 0
    ensures x.i < 0 ==> r.value.i <= 0
  {
    TruncDivFits(x.i, y.i);
    TruncDivRem(x.i, y.i);
    Some(Int(TruncRem(x.i, y.i)))
  }

  /** `div` and `rem` recompose the dividend: `x == (x / y) * y + x % y`. */
  lemma DivRemRecompose(x: Value, y: Value)
    requires y.i != 0 && !(x.i == I64_MIN && y.i == -1)
    ensures x.i == Div(x, y).value.i * y.i + Rem(x, y).value.i
  {
    TruncDivRem(x.i, y.i);
  }
}
