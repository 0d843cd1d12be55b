/**
 * Integer power of the math library of the older runtime
 * (src/libs/math_lib.c): `ii_pow`, square-and-multiply with saturation at
 * `I_INT_MAX`, and the branch tree of the `^` callback.
 *
 * Float results are not modelled: where `^` would compute one, the model
 * answers `None`.  Signed overflow in the unchecked products of `ii_pow`
 * is taken to wrap as on the target.
 */
module MathLib {
  import opened CTypes
  import opened IValues
  import CoreLib
  import CommonLib

  /** `a` to the power `b`. */
  function Pow(a: int, b: nat): int
  {
    if b == 0 then 1 else Pow(a, b - 1) * a
  }

  /**
   * `ii_pow(a, b)` for `b >= 0`: exponents 2, 1 and 0 directly (the square
   * unchecked); an even exponent squares the half power, an odd one
   * multiplies the power one below by `a`, each giving `I_INT_MAX` once a
   * factor already is `I_INT_MAX` or the product would pass it.  `None`
   * where the overflow test divides by a zero power.
   */
  function IIPow(a: i64, b: nat): (r: Option<i64>)
    ensures b <= 2 ==> r == Some(if b == 0 then 1 else if b == 1 then a else WrapI64(a * a))
    decreases b
  {
    if b == 2 then Some(WrapI64(a * a))
    else if b == 1 then Some(a)
    else if b == 0 then Some(1)
    else if b % 2 == 0 then
      match IIPow(a, b / 2)
      case None => None
      case Some(r) =>
        if r == I_INT_MAX then Some(r)
        else if r == 0 then None
        else if CDiv(I_INT_MAX, r) < r then Some(I_INT_MAX)
        else Some(WrapI64(r * r))
    else
      match IIPow(a, b - 1)
      case None => None
      case Some(r) =>
        if r == I_INT_MAX then Some(r)
        else if r == 0 then None
        else if CDiv(I_INT_MAX, r) < a then Some(I_INT_MAX)
        else Some(WrapI64(r * a))
  }

  /** Powers of a positive base are positive. */
  lemma {:induction false} PowPositive(a: int, b: nat)
    requires a >= 1
    ensures Pow(a, b) >= 1
  {
    if b > 0 {
      PowPositive(a, b - 1);
      CommonLib.MulAtLeast(a, Pow(a, b - 1));
    }
  }

  /** `a^(m+n) == a^m * a^n`. */
  lemma {:induction false} PowAdd(a: int, m: nat, n: nat)
    ensures Pow(a, m + n) == Pow(a, m) * Pow(a, n)
  {
    if n > 0 {
      PowAdd(a, m, n - 1);
      var x, y := Pow(a, m), Pow(a, n - 1);
      assert Pow(a, m + n) == (x * y) * a;
      assert (x * y) * a == x * (y * a);
    }
  }

  /** `min(x, I_INT_MAX)`: the saturated value. */
  function Saturated(x: int): int
  {
    if x < I_INT_MAX then x else I_INT_MAX
  }

  /**
   * For a base of at least 1 whose square fits, `ii_pow` computes the
   * power exactly while it stays below `I_INT_MAX`, and `I_INT_MAX`
   * from there on.
   */
  lemma {:induction false} IIPowSaturates(a: i64, b: nat)
    requires 1 <= a && a * a <= I_INT_MAX
    ensures IIPow(a, b) == Some(Saturated(Pow(a, b)))
    decreases b
  {
    PowPositive(a, b);
    if b == 2 {
      assert Pow(a, 1) == a;
      assert Pow(a, 2) == a * a;
    } else if b == 1 {
      assert Pow(a, 1) == a;
      CommonLib.MulAtLeast(a, a);
    } else if b == 0 {
    } else if b % 2 == 0 {
      var h := b / 2;
      IIPowSaturates(a, h);
      PowPositive(a, h);
      PowAdd(a, h, h);
      SquareSaturates(Pow(a, h));
    } else {
      IIPowSaturates(a, b - 1);
      PowPositive(a, b - 1);
      TimesSaturates(Pow(a, b - 1), a);
    }
  }

  /** The even step of `ii_pow` squares a saturated power into the saturated square. */
  lemma SquareSaturates(p: int)
    requires p >= 1
    ensures var r := Saturated(p);
      (if r == I_INT_MAX then r else if CDiv(I_INT_MAX, r) < r then I_INT_MAX else WrapI64(r * r)) == Saturated(p * p)
  {
    CommonLib.MulAtLeast(p, p);
    if p < I_INT_MAX {
      CoreLib.DivTest(I_INT_MAX, p, p);
      assert CDiv(I_INT_MAX, p) == I_INT_MAX / p;
    }
  }

  /** The odd step of `ii_pow` multiplies a saturated power by the base into the saturated product. */
  lemma TimesSaturates(p: int, a: i64)
    requires p >= 1 && a >= 1
    ensures var r := Saturated(p);
      (if r == I_INT_MAX then r else if CDiv(I_INT_MAX, r) < a then I_INT_MAX else WrapI64(r * a)) == Saturated(p * a)
  {
    CommonLib.MulAtLeast(a, p);
    if p < I_INT_MAX {
      CoreLib.DivTest(I_INT_MAX, p, a);
      assert CDiv(I_INT_MAX, p) == I_INT_MAX / p;
    }
  }

  /** A base whose square wraps to zero also divides by zero: `2^32` to the fourth. */
  lemma IIPowWrapsToZero()
    ensures IIPow(0x1_0000_0000, 4) == None
  {
    assert IIPow(0x1_0000_0000, 2) == Some(0);
  }

  /** With base 0 an exponent of 3 or more reaches the overflow test with a zero power. */
  lemma {:induction false} IIPowZeroBase(b: nat)
    requires b >= 3
    ensures IIPow(0, b) == None
    decreases b
  {
    if b % 2 == 0 {
      if b / 2 >= 3 {
        IIPowZeroBase(b / 2);
      }
    } else if b - 1 >= 3 {
      IIPowZeroBase(b - 1);
    }
  }

  const ZERO_POW_MSG := "Cannot raise 0 to the zeroth power"

  /** `i_val_as_float`: ints and floats as numbers, anything else as 0. */
  function AsNumber(v: IVal): (x: real)
    ensures v.IInt? ==> x == v.i as real && (x == 0.0 <==> v.i == 0)
    ensures !v.IInt? && !v.IFloat? ==> x == 0.0
  {
    if v.IInt? then v.i as real else if v.IFloat? then v.f else 0.0
  }

  /**
   * `^`: the exponent's type picks the branch.  An int exponent with an
   * int base refuses `0^0`, gives 0 for a negative exponent, and reports
   * a saturated power as an overflow; an int exponent with a float base
   * refuses exponent 0 (`fi_pow` yields 0 there); a float exponent
   * refuses a zero base (anything not a number counts as 0) with a zero
   * exponent.  `None` stands for a float result.
   */
  function PowCallback(base: IVal, exp: IVal): (r: Option<IVal>)
    ensures !exp.IInt? && !exp.IFloat? ==> r == Some(Err("Exponent must be either integer or floating point number"))
    ensures exp.IInt? && !base.IInt? && !base.IFloat? ==> r == Some(Err("Base must be either integer or floating point number"))
    ensures r.None? ==> base.IFloat? || exp.IFloat? || (base.IInt? && exp.i >= 3)
  {
    if exp.IInt? then
      var e := exp.i;
      if base.IInt? then
        if base.i == 0 && e == 0 then Some(Err(ZERO_POW_MSG))
        else if e < 0 then Some(IInt(0))
        else
          match IIPow(base.i, e)
          case None => None
          case Some(res) => if res == I_INT_MAX then Some(Err("Integer overflow")) else Some(IInt(res))
      else if base.IFloat? then
        if e == 0 then Some(Err(ZERO_POW_MSG)) else None
      else Some(Err("Base must be either integer or floating point number"))
    else if exp.IFloat? then
      if AsNumber(base) == 0.0 && exp.f == 0.0 then Some(Err(ZERO_POW_MSG)) else None
    else Some(Err("Exponent must be either integer or floating point number"))
  }

  /** The int-by-int `^` on a base of at least 1 whose square fits: the exact power below `I_INT_MAX`, an overflow error from there on. */
  lemma PowIntInt(a: i64, e: i64)
    requires 1 <= a && a * a <= I_INT_MAX
    ensures e < 0 ==> PowCallback(IInt(a), IInt(e)) == Some(IInt(0))
    ensures e >= 0 ==>
      var r := PowCallback(IInt(a), IInt(e));
      && r.Some?
      && (Pow(a, e) < I_INT_MAX ==> r.value.IInt? && r.value.i == Pow(a, e))
      && (Pow(a, e) >= I_INT_MAX ==> r.value == Err("Integer overflow"))
  {
    if e >= 0 {
      IIPowSaturates(a, e);
    }
  }

  /** `0^0` is refused with every combination of int and float operands, and so is any float to the int power 0. */
  lemma ZeroToTheZero(x: real)
    ensures PowCallback(IInt(0), IInt(0)) == Some(Err(ZERO_POW_MSG))
    ensures PowCallback(IFloat(x), IInt(0)) == Some(Err(ZERO_POW_MSG))
    ensures PowCallback(IInt(0), IFloat(0.0)) == Some(Err(ZERO_POW_MSG))
    ensures PowCallback(IFloat(0.0), IFloat(0.0)) == Some(Err(ZERO_POW_MSG))
  {
  }
}
