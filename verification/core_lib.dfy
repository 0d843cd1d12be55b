/**
 * The core library of the older runtime (src/libs/core_lib.c): checked
 * 64-bit integer arithmetic, the `+ - * /` folds, the comparison chains,
 * `~=`, and the control callbacks `if`, `for`, `assert`, `sizeof` and
 * `return`.
 *
 * Calling a script function is outside this model: `if` answers which
 * argument it calls, and `for` is given the results the body returns for
 * each index as a function.
 */
module CoreLib {
  import opened CTypes
  import opened IValues
  import IEnv

  // ---------------------------------------------------------------- checked arithmetic

  /** `safe_sum`: the exact sum, or `None` when it leaves the `long long` range. */
  function SafeSum(a: i64, b: i64): (r: Option<i64>)
    ensures r.Some? <==> IsInt64(a + b)
    ensures r.Some? ==> r.value == a + b
  {
    if a >= 0 then
      (if b >= 0 && I_INT_MAX - a < b then None else Some(a + b))
    else
      (if b < 0 && I_INT_MIN - a > b then None else Some(a + b))
  }

  /**
   * `safe_sub`: rejects every `b` below `-I_INT_MAX` (that is, `I_INT_MIN`),
   * even when `a - b` would fit; otherwise `safe_sum(a, -b)`.
   */
  function SafeSub(a: i64, b: i64): (r: Option<i64>)
    ensures r.Some? <==> b != I_INT_MIN && IsInt64(a - b)
    ensures r.Some? ==> r.value == a - b
  {
    if b < -I_INT_MAX then None else SafeSum(a, -b)
  }

  /** `safe_sub` refuses `-1 - I_INT_MIN` although the difference is `I_INT_MAX`. */
  lemma SafeSubRejectsMin()
    ensures IsInt64(-1 - I_INT_MIN) && SafeSub(-1, I_INT_MIN).None?
  {
  }

  /**
   * `safe_div`: only `I_INT_MIN / -1` overflows; otherwise C's truncating
   * quotient.  A zero divisor is rejected by the caller before.
   */
  function SafeDiv(a: i64, b: i64): (r: Option<i64>)
    requires b != 0
    ensures r.None? <==> a == I_INT_MIN && b == -1
    ensures r.Some? ==> r.value * b + CRem(a, b) == a && Abs(CRem(a, b)) < Abs(b)
    ensures r.Some? && a >= 0 ==> 0 <= CRem(a, b)
    ensures r.Some? && a <= 0 ==> CRem(a, b) <= 0
  {
    CRemBounds(a, b);
    if a == I_INT_MIN && b == -1 then None
    else
      QuotientFits(a, b);
      Some(CDiv(a, b))
  }

  lemma QuotientFits(a: i64, b: int)
    requires b != 0 && !(a == I_INT_MIN && b == -1)
    ensures IsInt64(CDiv(a, b))
  {
    var A, B := Abs(a), Abs(b);
    if B == 1 {
      assert A / B == A;
    } else {
      DivSmaller(A, B);
    }
  }

  lemma DivSmaller(x: nat, y: nat)
    requires y >= 2
    ensures x / y <= x / 2
  {
    var q := x / y;
    assert q * y <= x;
    assert q * 2 <= q * y;
  }

  /** For positive `x` and `y`: `m / x < y` exactly when `x * y > m` (the test `safe_mul` makes). */
  lemma DivTest(m: nat, x: nat, y: nat)
    requires x > 0 && y > 0
    ensures m / x < y <==> x * y > m
  {
    var q, r := m / x, m % x;
    assert m == q * x + r && 0 <= r < x;
    if q < y {
      assert x * y >= x * (q + 1) by {
        assert y >= q + 1;
      }
    } else {
      assert x * y <= x * q;
    }
  }

  /**
   * `safe_mul`: zero when either operand is zero; otherwise the exact
   * product exactly when `|a| * |b| <= I_INT_MAX`.  An operand at or below
   * `-I_INT_MAX` becomes a huge unsigned magnitude and always fails.
   */
  function SafeMul(a: i64, b: i64): (r: Option<i64>)
    ensures r.Some? <==> a == 0 || b == 0 || (a > -I_INT_MAX && b > -I_INT_MAX && Abs(a) * Abs(b) <= I_INT_MAX)
    ensures r.Some? ==> r.value == a * b
  {
    if a == 0 || b == 0 then Some(0)
    else
      var au, bu := Magnitude(a), Magnitude(b);
      MagnitudeTest(a, b);
      if I_INT_MAX / au < bu then None
      else
        var res := au * bu;
        if (a < 0) != (b < 0) then Some(-res) else Some(res)
  }

  /** The operand as `safe_mul` casts it to `size_t` after taking its sign off. */
  function Magnitude(x: i64): nat
  {
    if x <= -I_INT_MAX then Wrap64(x) else Abs(x)
  }

  /** The overflow test of `safe_mul` on two nonzero operands. */
  lemma MagnitudeTest(a: i64, b: i64)
    requires a != 0 && b != 0
    ensures I_INT_MAX / Magnitude(a) < Magnitude(b) <==> !(a > -I_INT_MAX && b > -I_INT_MAX && Abs(a) * Abs(b) <= I_INT_MAX)
    ensures I_INT_MAX / Magnitude(a) >= Magnitude(b) ==>
      a * b == if (a < 0) != (b < 0) then -(Magnitude(a) * Magnitude(b)) else Magnitude(a) * Magnitude(b)
  {
    var au, bu := Magnitude(a), Magnitude(b);
    DivTest(I_INT_MAX, au, bu);
    if a <= -I_INT_MAX {
      Huge(a, bu);
    } else if b <= -I_INT_MAX {
      Huge(b, au);
    } else {
      SignBack(a, b);
    }
  }

  /** An operand at or below `-I_INT_MAX` wraps to more than `I_INT_MAX`, and so does its product with any positive factor. */
  lemma Huge(x: i64, y: nat)
    requires x <= -I_INT_MAX && y >= 1
    ensures Magnitude(x) * y > I_INT_MAX && y * Magnitude(x) > I_INT_MAX
  {
    var m := Magnitude(x);
    assert m == x + U64;
    assert m * y >= m;
  }

  /** A product is the product of the magnitudes, negated when the signs differ. */
  lemma SignBack(a: int, b: int)
    ensures a * b == if (a < 0) != (b < 0) then -(Abs(a) * Abs(b)) else Abs(a) * Abs(b)
  {
    if a < 0 && b < 0 {
      assert a * b == (-a) * (-b);
    } else if a < 0 {
      assert a * b == -((-a) * b);
    } else if b < 0 {
      assert a * b == -(a * (-b));
    }
  }

  /** `-I_INT_MAX * 1` is refused though the product fits. */
  lemma SafeMulRejectsNearMin()
    ensures SafeMul(-I_INT_MAX, 1).None?
  {
  }

  // ---------------------------------------------------------------- the arithmetic folds

  datatype ArithOp = Add | Sub | Mul | Div

  /** The operator as `#op` writes it into the error message. */
  function OpName(op: ArithOp): string
  {
    match op
    case Add => "+"
    case Sub => "-"
    case Mul => "*"
    case Div => "/"
  }

  function TypeMsg(op: ArithOp): string
  {
    "Function '" + OpName(op) + "' only accepts integer and float values"
  }

  const OVERFLOW_MSG := "Integer out of bounds (overflow/underflow)"

  /** The running result of a fold: an `i_int` until the first float, then an `i_float`. */
  datatype Acc = AInt(i: i64) | AFloat(f: real)

  function AsReal(acc: Acc): real
  {
    match acc
    case AInt(i) => i as real
    case AFloat(f) => f
  }

  function RealOp(op: ArithOp, x: real, y: real): real
    requires op == Div ==> y != 0.0
  {
    match op
    case Add => x + y
    case Sub => x - y
    case Mul => x * y
    case Div => x / y
  }

  function IntOp(op: ArithOp, x: i64, y: i64): Option<i64>
    requires op == Div ==> y != 0
  {
    match op
    case Add => SafeSum(x, y)
    case Sub => SafeSub(x, y)
    case Mul => SafeMul(x, y)
    case Div => SafeDiv(x, y)
  }

  /** One argument of the fold after the first: `check_v`, then the int or float step. */
  function Step(op: ArithOp, acc: Acc, v: IVal): Result<Acc>
  {
    if v.IInt? then
      if op == Div && v.i == 0 then Fail("Division by zero")
      else if acc.AFloat? then Ok(AFloat(RealOp(op, acc.f, v.i as real)))
      else
        match IntOp(op, acc.i, v.i)
        case None => Fail(OVERFLOW_MSG)
        case Some(x) => Ok(AInt(x))
    else if v.IFloat? then
      if op == Div && v.f == 0.0 then Fail("Division by zero")
      else Ok(AFloat(RealOp(op, AsReal(acc), v.f)))
    else Fail(TypeMsg(op))
  }

  /** The fold over the remaining arguments, stopping at the first error. */
  function Fold(op: ArithOp, acc: Acc, rest: seq<IVal>): Result<Acc>
    decreases |rest|
  {
    if rest == [] then Ok(acc)
    else
      match Step(op, acc, rest[0])
      case Fail(m) => Fail(m)
      case Ok(a) => Fold(op, a, rest[1..])
  }

  function AccVal(acc: Acc): IVal
  {
    match acc
    case AInt(i) => IInt(i)
    case AFloat(f) => IFloat(f)
  }

  /**
   * What `OP_CALLBACK` returns: the first argument must be a number; `-` on
   * one argument negates it (an int `I_INT_MIN` wraps to itself); otherwise
   * the fold.
   */
  function Arith(op: ArithOp, args: seq<IVal>): IVal
    requires |args| >= 1
  {
    var first := args[0];
    if !(first.IInt? || first.IFloat?) then Err(TypeMsg(op))
    else
      var acc := if first.IInt? then AInt(first.i) else AFloat(first.f);
      if op == Sub && |args| == 1 then
        (if first.IInt? then IInt(WrapI64(0 - first.i as int)) else IFloat(-first.f))
      else
        match Fold(op, acc, args[1..])
        case Fail(m) => Err(m)
        case Ok(a) => AccVal(a)
  }

  /** The `+ - * /` callbacks: a left fold updating `int_res` / `float_res` argument by argument. */
  method ArithCallback(op: ArithOp, args: seq<IVal>) returns (r: IVal)
    requires |args| >= 1
    ensures r == Arith(op, args)
  {
    var acc: Acc;
    if args[0].IInt? {
      acc := AInt(args[0].i);
    } else if args[0].IFloat? {
      acc := AFloat(args[0].f);
    } else {
      return Err(TypeMsg(op));
    }
    if op == Sub && |args| == 1 {
      if acc.AInt? {
        return IInt(WrapI64(0 - acc.i as int));
      }
      return IFloat(-acc.f);
    }
    var i := 1;
    while i < |args|
      invariant 1 <= i <= |args|
      invariant Fold(op, acc, args[i..]) == Fold(op, if args[0].IInt? then AInt(args[0].i) else AFloat(args[0].f), args[1..])
    {
      assert args[i..][1..] == args[i + 1..];
      var v := args[i];
      if v.IInt? {
        if op == Div && v.i == 0 {
          return Err("Division by zero");
        }
        if acc.AFloat? {
          acc := AFloat(RealOp(op, acc.f, v.i as real));
        } else {
          var res := IntOp(op, acc.i, v.i);
          if res.None? {
            return Err(OVERFLOW_MSG);
          }
          acc := AInt(res.value);
        }
      } else if v.IFloat? {
        if op == Div && v.f == 0.0 {
          return Err("Division by zero");
        }
        acc := AFloat(RealOp(op, AsReal(acc), v.f));
      } else {
        return Err(TypeMsg(op));
      }
      i := i + 1;
    }
    return AccVal(acc);
  }

  predicate AllInts(xs: seq<IVal>)
  {
    forall k :: 0 <= k < |xs| ==> xs[k].IInt?
  }

  function Sum(xs: seq<IVal>): int
    requires AllInts(xs)
  {
    if xs == [] then 0 else Sum(xs[..|xs| - 1]) + xs[|xs| - 1].i
  }

  /** Every partial sum `xs[0] + ... + xs[k-1]`, for `k` from `lo` to `|xs|`, fits in a `long long`. */
  predicate PrefixSumsFit(xs: seq<IVal>, lo: nat)
    requires AllInts(xs)
  {
    IsInt64(Sum(xs)) && forall k :: lo <= k < |xs| ==> IsInt64(Sum(xs[..k]))
  }

  lemma {:induction false} FoldAdd(xs: seq<IVal>, i: nat)
    requires AllInts(xs) && 1 <= i <= |xs| && IsInt64(Sum(xs[..i]))
    ensures Fold(Add, AInt(Sum(xs[..i])), xs[i..])
         == if PrefixSumsFit(xs, i) then Ok(AInt(Sum(xs))) else Fail(OVERFLOW_MSG)
    decreases |xs| - i
  {
    if i == |xs| {
      assert xs[..i] == xs;
    } else {
      assert xs[..i + 1][..i] == xs[..i];
      assert Sum(xs[..i + 1]) == Sum(xs[..i]) + xs[i].i;
      assert xs[i..][1..] == xs[i + 1..];
      if IsInt64(Sum(xs[..i + 1])) {
        FoldAdd(xs, i + 1);
      }
    }
  }

  /**
   * `+` over integers is their exact sum when every partial sum fits, and
   * the overflow error as soon as one does not.
   */
  lemma AddInts(xs: seq<IVal>)
    requires |xs| >= 1 && AllInts(xs)
    ensures Arith(Add, xs) == if PrefixSumsFit(xs, 1) then IInt(Sum(xs)) else Err(OVERFLOW_MSG)
  {
    assert xs[..1] == [xs[0]];
    assert Sum([xs[0]]) == Sum([]) + xs[0].i;
    FoldAdd(xs, 1);
  }

  lemma {:induction false} FoldFloat(op: ArithOp, acc: Acc, rest: seq<IVal>)
    requires Fold(op, acc, rest).Ok?
    ensures Fold(op, acc, rest).value.AFloat? <==> acc.AFloat? || exists k :: 0 <= k < |rest| && rest[k].IFloat?
    decreases |rest|
  {
    if rest != [] {
      var a := Step(op, acc, rest[0]).value;
      FoldFloat(op, a, rest[1..]);
      if exists k :: 0 <= k < |rest[1..]| && rest[1..][k].IFloat? {
        var k :| 0 <= k < |rest[1..]| && rest[1..][k].IFloat?;
        assert rest[k + 1].IFloat?;
      }
      if exists k :: 0 <= k < |rest| && rest[k].IFloat? {
        var k :| 0 <= k < |rest| && rest[k].IFloat?;
        if k > 0 {
          assert rest[1..][k - 1].IFloat?;
        }
      }
    }
  }

  /** A fold that does not fail yields a float exactly when some argument is a float. */
  lemma ArithFloat(op: ArithOp, args: seq<IVal>)
    requires |args| >= 2 && !Arith(op, args).IErr?
    ensures Arith(op, args).IFloat? <==> exists k :: 0 <= k < |args| && args[k].IFloat?
  {
    var acc := if args[0].IInt? then AInt(args[0].i) else AFloat(args[0].f);
    FoldFloat(op, acc, args[1..]);
    if exists k :: 0 <= k < |args| && args[k].IFloat? {
      var k :| 0 <= k < |args| && args[k].IFloat?;
      if k > 0 {
        assert args[1..][k - 1].IFloat?;
      }
    }
    if exists k :: 0 <= k < |args[1..]| && args[1..][k].IFloat? {
      var k :| 0 <= k < |args[1..]| && args[1..][k].IFloat?;
      assert args[k + 1].IFloat?;
    }
  }

  // ---------------------------------------------------------------- comparison chains

  datatype Rel = Eq | NotEq | Less | Greater | LessEq | GreaterEq

  /** The test `CMP_OP_CALLBACK` applies to an adjacent pair of the same type. */
  predicate Holds(rel: Rel, a: IVal, b: IVal)
  {
    match rel
    case Eq => IEq(a, b)
    case NotEq => !IEq(a, b)
    case Less => ICmp(a, b) == 1
    case Greater => ICmp(a, b) == -1
    case LessEq => ICmp(a, b) == 1 || ICmp(a, b) == 0
    case GreaterEq => ICmp(a, b) == -1 || ICmp(a, b) == 0
  }

  predicate SameType(args: seq<IVal>, j: nat)
    requires 1 <= j < |args|
  {
    args[j - 1].TypeOf() == args[j].TypeOf()
  }

  /** Every adjacent pair before position `j` has equal types and satisfies the relation. */
  predicate PairsHold(rel: Rel, args: seq<IVal>, j: nat)
    requires j <= |args|
  {
    forall k :: 1 <= k < j ==> SameType(args, k) && Holds(rel, args[k - 1], args[k])
  }

  const MIXED_MSG := "Comparing values of different types"

  /**
   * `== /= < > <= >=`: true when every adjacent pair holds; false at the
   * first pair that does not; an error at the first pair of different types.
   */
  method CmpChain(rel: Rel, args: seq<IVal>) returns (r: IVal)
    requires |args| >= 1
    ensures r == IBool(true) || r == IBool(false) || r == Err(MIXED_MSG)
    ensures r == IBool(true) <==> PairsHold(rel, args, |args|)
    ensures r == IBool(false) <==>
      exists j :: 1 <= j < |args| && PairsHold(rel, args, j) && SameType(args, j) && !Holds(rel, args[j - 1], args[j])
    ensures r == Err(MIXED_MSG) <==> exists j :: 1 <= j < |args| && PairsHold(rel, args, j) && !SameType(args, j)
  {
    var prev := args[0];
    var i := 1;
    while i < |args|
      invariant 1 <= i <= |args| && prev == args[i - 1]
      invariant PairsHold(rel, args, i)
    {
      var next := args[i];
      if prev.TypeOf() != next.TypeOf() {
        assert !SameType(args, i);
        FirstFailure(rel, args, i);
        return Err(MIXED_MSG);
      }
      if !Holds(rel, prev, next) {
        FirstFailure(rel, args, i);
        return IBool(false);
      }
      prev := next;
      i := i + 1;
    }
    return IBool(true);
  }

  /** The first failing pair is unique: no later position has all pairs before it holding. */
  lemma FirstFailure(rel: Rel, args: seq<IVal>, i: nat)
    requires 1 <= i < |args| && PairsHold(rel, args, i)
    requires !(SameType(args, i) && Holds(rel, args[i - 1], args[i]))
    ensures !PairsHold(rel, args, |args|)
    ensures forall j :: i < j <= |args| ==> !PairsHold(rel, args, j)
  {
  }

  /** A `<` chain that holds is strictly increasing throughout, not just between neighbours. */
  lemma {:induction false} LessChainIncreasing(args: seq<IVal>, j: nat)
    requires 1 <= j <= |args| && PairsHold(Less, args, j)
    ensures forall a, b :: 0 <= a < b < j ==> ICmp(args[a], args[b]) == 1
  {
    if j > 1 {
      LessChainIncreasing(args, j - 1);
      forall a | 0 <= a < j - 1
        ensures ICmp(args[a], args[j - 1]) == 1
      {
        if a < j - 2 {
          CmpTransitive(args[a], args[j - 2], args[j - 1]);
        }
      }
    }
  }

  /**
   * `~=`: true exactly when every argument has the first one's type and is
   * `i_val_eq` to it; never an error.
   */
  method LenientEq(args: seq<IVal>) returns (r: bool)
    requires |args| >= 1
    ensures r <==> forall j :: 1 <= j < |args| ==> args[j].TypeOf() == args[0].TypeOf() && IEq(args[0], args[j])
  {
    var first := args[0];
    var i := 1;
    while i < |args|
      invariant 1 <= i <= |args|
      invariant forall j :: 1 <= j < i ==> args[j].TypeOf() == first.TypeOf() && IEq(first, args[j])
    {
      if args[i].TypeOf() != first.TypeOf() {
        return false;
      }
      if !IEq(first, args[i]) {
        return false;
      }
      i := i + 1;
    }
    return true;
  }

  /** When `~=` holds, every two arguments are `i_val_eq`. */
  lemma LenientAllPairs(args: seq<IVal>)
    requires |args| >= 1
    requires forall j :: 1 <= j < |args| ==> IEq(args[0], args[j])
    ensures forall a, b :: 0 <= a < b < |args| ==> IEq(args[a], args[b])
  {
    forall a, b | 0 <= a < b < |args|
      ensures IEq(args[a], args[b])
    {
      if a > 0 {
        IEqSymmetric(args[0], args[a]);
        IEqTransitive(args[a], args[0], args[b]);
      }
    }
  }

  /**
   * An `==` chain holds exactly when `~=` does: comparing neighbours and
   * comparing everything with the first argument agree.
   */
  lemma {:induction false} EqChainIsLenient(args: seq<IVal>)
    requires |args| >= 1
    ensures PairsHold(Eq, args, |args|) <==> forall j :: 1 <= j < |args| ==> args[j].TypeOf() == args[0].TypeOf() && IEq(args[0], args[j])
  {
    if PairsHold(Eq, args, |args|) {
      forall j | 1 <= j < |args|
        ensures IEq(args[0], args[j])
      {
        EqChainPrefix(args, j);
      }
    }
    if forall j :: 1 <= j < |args| ==> args[j].TypeOf() == args[0].TypeOf() && IEq(args[0], args[j]) {
      LenientAllPairs(args);
      forall k | 1 <= k < |args|
        ensures SameType(args, k) && IEq(args[k - 1], args[k])
      {
        assert IEq(args[k - 1], args[k]);
      }
    }
  }

  lemma {:induction false} EqChainPrefix(args: seq<IVal>, j: nat)
    requires 1 <= j < |args| && PairsHold(Eq, args, |args|)
    ensures IEq(args[0], args[j])
  {
    if j > 1 {
      EqChainPrefix(args, j - 1);
      IEqTransitive(args[0], args[j - 1], args[j]);
    }
  }

  // ---------------------------------------------------------------- control callbacks

  /** What a control callback does next: call one of its arguments, or return a value. */
  datatype Outcome = CallArg(k: nat) | Value(v: IVal)

  /** Every condition at an even position before `m` is `false`. */
  predicate FalseBefore(args: seq<IVal>, m: nat)
    requires m <= |args|
  {
    forall j :: 0 <= j < m && j % 2 == 0 ==> args[j] == IBool(false)
  }

  const IF_MSG := "If condition must be boolean"

  /**
   * `if c1 f1 c2 f2 ... [else]`: calls the function after the first true
   * condition; with an odd count the last argument is the else branch; a
   * non-boolean condition met on the way is an error; otherwise null.
   */
  method IfCallback(args: seq<IVal>) returns (r: Outcome)
    requires |args| >= 2
    ensures r.CallArg? ==> r.k < |args|
    ensures r.CallArg? && r.k % 2 == 1 ==> args[r.k - 1] == IBool(true) && FalseBefore(args, r.k - 1)
    ensures r.CallArg? && r.k % 2 == 0 ==> r.k == |args| - 1 && |args| % 2 == 1 && FalseBefore(args, r.k)
    ensures r == Value(INull) <==> |args| % 2 == 0 && FalseBefore(args, |args|)
    ensures r.Value? && r != Value(INull) ==> r == Value(Err(IF_MSG))
    ensures r == Value(Err(IF_MSG)) <==>
      exists j :: 0 <= j < |args| - 1 && j % 2 == 0 && !args[j].IBool? && FalseBefore(args, j)
  {
    var i := 0;
    while i < |args| - 1
      invariant 0 <= i <= |args| && i % 2 == 0
      invariant FalseBefore(args, i)
    {
      var cond := args[i];
      if !cond.IBool? {
        return Value(Err(IF_MSG));
      }
      if cond.b {
        assert forall j :: i < j < |args| - 1 && j % 2 == 0 ==> !FalseBefore(args, j);
        return CallArg(i + 1);
      }
      i := i + 2;
    }
    assert forall j :: 0 <= j < |args| - 1 && j % 2 == 0 ==> args[j] == IBool(false);
    if |args| % 2 == 1 {
      return CallArg(|args| - 1);
    }
    return Value(INull);
  }

  /** The result of `for`: a value, or a loop that never ends. */
  datatype ForOutcome = Done(v: IVal) | Diverges

  /** The index of the `k`-th visit: `from`, then each time `i += step`, wrapped as the `i_int` addition wraps. */
  function Visit(from: i64, step: i64, k: nat): i64
  {
    if k == 0 then from else AddI64(Visit(from, step, k - 1), step)
  }

  /** The `k`-th visit ends the loop: its index is not below the bound, or the body errs there. */
  ghost predicate Stops(from: i64, upto: i64, step: i64, call: int -> IVal, k: nat)
  {
    Visit(from, step, k) >= upto || call(Visit(from, step, k)).IErr?
  }

  /**
   * The loop of `for` as the C code runs it, at its `k`-th visit with index
   * `i` and `res` the last result: the body is called while `i < upto`, an
   * error result ends the loop, and `i += step` wraps.  The indices repeat
   * after 2^64 visits, so a loop still running then never ends.
   */
  function ForIter(k: nat, i: i64, upto: i64, step: i64, call: int -> IVal, res: IVal): ForOutcome
    requires k <= U64
    decreases U64 - k
  {
    if i >= upto then Done(res)
    else if k == U64 then Diverges
    else
      var v := call(i);
      if v.IErr? then Done(v) else ForIter(k + 1, AddI64(i, step), upto, step, call, v)
  }

  /** `for (i = from; i < upto; i += step)` from its start. */
  function ForLoop(from: i64, upto: i64, step: i64, call: int -> IVal): ForOutcome
  {
    ForIter(0, from, upto, step, call, INull)
  }

  /** The `k`-th visit's index is `from + k*step` (given as `p`) wrapped to 64 bits. */
  lemma {:induction false} VisitClosed(from: i64, step: i64, k: nat, p: int)
    requires p == k * step
    ensures Visit(from, step, k) == WrapI64(from + p)
  {
    if k > 0 {
      MulNext(k - 1, step);
      VisitClosed(from, step, k - 1, p - step);
      AddWrapped(Visit(from, step, k - 1), from + (p - step), step);
    }
  }

  lemma MulNext(k: nat, step: int)
    ensures (k + 1) * step == k * step + step
  {
  }

  /** The visited indices repeat with period 2^64. */
  lemma VisitPeriodic(from: i64, step: i64, k: nat)
    ensures Visit(from, step, k + U64) == Visit(from, step, k)
  {
    PeriodSplit(k, step);
    VisitClosed(from, step, k + U64, k * step + step * U64);
    VisitClosed(from, step, k, k * step);
    WrapShifted(from + (k * step + step * U64), from + k * step, step);
  }

  lemma PeriodSplit(k: nat, step: int)
    ensures (k + U64) * step == k * step + step * U64
  {
  }

  /** Before the first stop, the loop at visit `k` is the whole loop. */
  lemma ForIterAt(from: i64, upto: i64, step: i64, call: int -> IVal, k: nat)
    requires k <= U64
    requires forall j: nat :: j < k ==> !Stops(from, upto, step, call, j)
    ensures ForLoop(from, upto, step, call)
         == ForIter(k, Visit(from, step, k), upto, step, call, if k == 0 then INull else call(Visit(from, step, k - 1)))
  {
    var idx := (j: nat) => Visit(from, step, j);
    forall j: nat
      ensures idx(j + 1) == AddI64(idx(j), step)
    {
    }
    forall j: nat | j < k
      ensures idx(j) < upto && !call(idx(j)).IErr?
    {
      assert !Stops(from, upto, step, call, j);
    }
    ForIterAlong(idx, upto, step, call, k);
  }

  /**
   * The loop along any index sequence that steps as `i += step` does: before
   * the first stop, the loop at visit `k` is the whole loop.
   */
  lemma {:induction false} ForIterAlong(idx: nat -> i64, upto: i64, step: i64, call: int -> IVal, k: nat)
    requires k <= U64
    requires forall j: nat :: idx(j + 1) == AddI64(idx(j), step)
    requires forall j: nat :: j < k ==> idx(j) < upto && !call(idx(j)).IErr?
    ensures ForIter(0, idx(0), upto, step, call, INull)
         == ForIter(k, idx(k), upto, step, call, if k == 0 then INull else call(idx(k - 1)))
  {
    if k > 0 {
      ForIterAlong(idx, upto, step, call, k - 1);
      var i := idx(k - 1);
      assert i < upto && !call(i).IErr?;
      assert idx(k) == AddI64(i, step);
      ForIterStep(k - 1, i, upto, step, call, if k - 1 == 0 then INull else call(idx(k - 2)));
    }
  }

  /** One visit that does not stop moves the loop to the next index with the call's result. */
  lemma ForIterStep(k: nat, i: i64, upto: i64, step: i64, call: int -> IVal, res: IVal)
    requires k < U64 && i < upto && !call(i).IErr?
    ensures ForIter(k, i, upto, step, call, res) == ForIter(k + 1, AddI64(i, step), upto, step, call, call(i))
  {
  }

  /** The first visit that stops decides the result: the last body result at the bound, or the error. */
  lemma ForFirstStop(from: i64, upto: i64, step: i64, call: int -> IVal, k: nat)
    requires forall j: nat :: j < k ==> !Stops(from, upto, step, call, j)
    requires Stops(from, upto, step, call, k)
    ensures ForLoop(from, upto, step, call) ==
      if Visit(from, step, k) >= upto then Done(if k == 0 then INull else call(Visit(from, step, k - 1)))
      else Done(call(Visit(from, step, k)))
  {
    if k >= U64 {
      VisitPeriodic(from, step, k - U64);
      assert Stops(from, upto, step, call, k - U64);
      assert false;
    }
    ForIterAt(from, upto, step, call, k);
  }

  /** Some visit stops exactly when a first one does. */
  lemma {:induction false} FirstStopExists(from: i64, upto: i64, step: i64, call: int -> IVal, k: nat) returns (m: nat)
    requires Stops(from, upto, step, call, k)
    ensures m <= k && Stops(from, upto, step, call, m)
    ensures forall j: nat :: j < m ==> !Stops(from, upto, step, call, j)
    decreases k
  {
    if j: nat :| j < k && Stops(from, upto, step, call, j) {
      m := FirstStopExists(from, upto, step, call, j);
    } else {
      m := k;
    }
  }

  /** `for` runs forever exactly when no visit stops: every index stays below the bound and no call errs. */
  lemma ForDiverges(from: i64, upto: i64, step: i64, call: int -> IVal)
    ensures ForLoop(from, upto, step, call) == Diverges <==> forall k: nat :: !Stops(from, upto, step, call, k)
  {
    if forall k: nat :: !Stops(from, upto, step, call, k) {
      ForIterAt(from, upto, step, call, U64);
      VisitPeriodic(from, step, 0);
      assert !Stops(from, upto, step, call, 0);
    } else {
      var k: nat :| Stops(from, upto, step, call, k);
      var m := FirstStopExists(from, upto, step, call, k);
      ForFirstStop(from, upto, step, call, m);
    }
  }

  /**
   * Without wrap-around (no index below the bound passes `I_INT_MAX` when
   * stepped), a positive step visits `from, from+step, ...` as `ForFrom` says.
   */
  lemma {:induction false} ForIterNoWrap(from: i64, upto: i64, step: i64, call: int -> IVal, k: nat, i: i64, res: IVal)
    requires step > 0 && upto - 1 + step <= I_INT_MAX
    requires k <= U64 && i == from + k * step
    ensures ForIter(k, i, upto, step, call, res) == Done(ForFrom(i, upto, step, call, res))
    decreases U64 - k
  {
    if i < upto {
      assert k <= k * step by { MulAtLeastOne(k, step); }
      var v := call(i);
      if !v.IErr? {
        assert from + (k + 1) * step == i + step;
        ForIterNoWrap(from, upto, step, call, k + 1, i + step, v);
      }
    }
  }

  lemma MulAtLeastOne(k: nat, step: int)
    requires step >= 1
    ensures k <= k * step
  {
    assert k * step == k + k * (step - 1);
  }

  /** A positive step that cannot wrap gives the plain loop's result. */
  lemma ForNoWrap(from: i64, upto: i64, step: i64, call: int -> IVal)
    requires step > 0 && upto - 1 + step <= I_INT_MAX
    ensures ForLoop(from, upto, step, call) == Done(ForFrom(from, upto, step, call, INull))
  {
    ForIterNoWrap(from, upto, step, call, 0, from, INull);
  }

  /**
   * A step of zero or less from below the bound never reaches it before
   * wrapping: while `from + k*step` stays in range it is the visit's index
   * and lies below the bound, so only an erring call ends the loop there.
   */
  lemma ForDownBelow(from: i64, upto: i64, step: i64, k: nat)
    requires step <= 0 && from < upto && from + k * step >= I_INT_MIN
    ensures Visit(from, step, k) == from + k * step < upto
  {
    VisitClosed(from, step, k, k * step);
    var down: int := 0 - step as int;
    assert k * step == -(k * down);
  }

  /**
   * The loop of `for` from index `i`, with `res` the last result: the body
   * is called with `i, i+step, ...` while below `upto`; an error result ends it.
   */
  function ForFrom(i: int, upto: int, step: int, call: int -> IVal, res: IVal): IVal
    requires step > 0
    decreases upto - i
  {
    if i >= upto then res
    else
      var v := call(i);
      if v.IErr? then v else ForFrom(i + step, upto, step, call, v)
  }

  /** The last index the loop visits. */
  function LastIndex(from: int, upto: int, step: int): int
    requires step > 0 && from < upto
  {
    from + ((upto - from - 1) / step) * step
  }

  /** No call on an index the loop visits returns an error. */
  ghost predicate NoErrors(from: int, upto: int, step: int, call: int -> IVal)
    requires step > 0
  {
    forall k: nat :: from + k * step < upto ==> !call(from + k * step).IErr?
  }

  /** With `q` the index of the last visit, the `k`-th index is below the bound exactly when `k <= q`. */
  lemma VisitBound(from: int, upto: int, step: int, k: nat)
    requires step > 0 && from < upto
    ensures from + k * step < upto <==> k <= (upto - from - 1) / step
  {
    if k > 0 {
      DivTest(upto - from - 1, step, k);
    }
  }

  lemma {:induction false} ForFromLast(from: int, k: nat, upto: int, step: int, call: int -> IVal, res: IVal)
    requires step > 0 && NoErrors(from, upto, step, call)
    requires k > 0 ==> from < upto && k - 1 <= (upto - from - 1) / step && res == call(from + (k - 1) * step)
    ensures ForFrom(from + k * step, upto, step, call, res) == if from < upto then call(LastIndex(from, upto, step)) else res
    decreases upto - (from + k * step)
  {
    var i := from + k * step;
    if i < upto {
      VisitBound(from, upto, step, k);
      assert !call(i).IErr?;
      NextVisit(from, k, step);
      ForFromLast(from, k + 1, upto, step, call, call(i));
    } else if k > 0 {
      VisitBound(from, upto, step, k);
      assert k - 1 == (upto - from - 1) / step;
    }
  }

  /** The visit after the `k`-th is one step further. */
  lemma NextVisit(from: int, k: nat, step: int)
    ensures from + (k + 1) * step == from + k * step + step
  {
  }

  /** Without errors, `for` returns the body's result at the last index, or null when there is none. */
  lemma ForResult(from: int, upto: int, step: int, call: int -> IVal)
    requires step > 0 && NoErrors(from, upto, step, call)
    ensures ForFrom(from, upto, step, call, INull) == if from < upto then call(LastIndex(from, upto, step)) else INull
  {
    ForFromLast(from, 0, upto, step, call, INull);
  }

  /** The first error a call returns is what `for` returns. */
  lemma {:induction false} ForStopsAtError(from: int, upto: int, step: int, call: int -> IVal, res: IVal)
    requires step > 0 && from < upto && call(from).IErr?
    ensures ForFrom(from, upto, step, call, res) == call(from)
  {
  }

  /** Counting down from below the bound: `for 5 10 -1 f` runs until `f` errs, here at 4. */
  lemma ForCountsDown(call: int -> IVal)
    requires !call(5).IErr? && call(4).IErr?
    ensures ForLoop(5, 10, -1, call) == Done(call(4))
  {
    assert Visit(5, -1, 1) == 4;
    ForFirstStop(5, 10, -1, call, 1);
  }

  /**
   * `for from to [by] body`: 3 or 4 arguments, two ints first.  The step is
   * the third argument (whatever it holds, read as an int: `stepBits` when it
   * is not one), else -1 when `from > upto`, else 1.  The loop runs as
   * `ForLoop` says.
   */
  method ForCallback(args: seq<IVal>, call: int -> IVal, stepBits: i64) returns (r: ForOutcome)
    ensures |args| != 3 && |args| != 4 ==> r == Done(Err("For loop takes either 3 or 4 arguments"))
    ensures (|args| == 3 || |args| == 4) && !args[0].IInt? ==> r == Done(Err("First argument must be integer"))
    ensures (|args| == 3 || |args| == 4) && args[0].IInt? && !args[1].IInt? ==> r == Done(Err("Second argument must be integer"))
    ensures (|args| == 3 || |args| == 4) && args[0].IInt? && args[1].IInt? ==>
      var from, upto := args[0].i, args[1].i;
      var step := if |args| == 4 then (if args[2].IInt? then args[2].i else stepBits) else if from > upto then -1 else 1;
      r == ForLoop(from, upto, step, call)
  {
    if |args| != 3 && |args| != 4 {
      return Done(Err("For loop takes either 3 or 4 arguments"));
    }
    if !args[0].IInt? {
      return Done(Err("First argument must be integer"));
    }
    if !args[1].IInt? {
      return Done(Err("Second argument must be integer"));
    }
    var from, upto := args[0].i, args[1].i;
    var step: i64 := 1;
    if |args| == 4 {
      step := if args[2].IInt? then args[2].i else stepBits;
    } else if from > upto {
      step := -1;
    }
    var res := INull;
    var i: i64 := from;
    var k: nat := 0;
    while i < upto && k < U64
      invariant k <= U64
      invariant ForIter(k, i, upto, step, call, res) == ForLoop(from, upto, step, call)
      decreases U64 - k
    {
      res := call(i);
      if res.IErr? {
        return Done(res);
      }
      i := AddI64(i, step);
      k := k + 1;
    }
    if i >= upto {
      return Done(res);
    }
    return Diverges;
  }

  /** `assert`: null when every argument is `true`; an error at the first that is not. */
  method AssertCallback(args: seq<IVal>) returns (r: IVal)
    ensures r == INull <==> forall j :: 0 <= j < |args| ==> args[j] == IBool(true)
    ensures r != INull ==>
      exists j :: 0 <= j < |args| && args[j] != IBool(true) && (forall k :: 0 <= k < j ==> args[k] == IBool(true)) && r == (if args[j].IBool? then Err("Assertion failed") else Err("Assert only accepts boolean values"))
  {
    var i := 0;
    while i < |args|
      invariant 0 <= i <= |args|
      invariant forall k :: 0 <= k < i ==> args[k] == IBool(true)
    {
      if !args[i].IBool? {
        return Err("Assert only accepts boolean values");
      }
      if !args[i].b {
        return Err("Assertion failed");
      }
      i := i + 1;
    }
    return INull;
  }

  /**
   * `sizeof`: the length of an array or string; for other values the size
   * their type's `TI_SIZEOF` interface reports (`ifaceSize`, an `i_size`),
   * or 1 when the type has none; a size beyond `I_INT_MAX` is an error.
   */
  function Sizeof(v: IVal, ifaceSize: Option<u32>): (r: IVal)
    ensures v.IArray? && |v.items| <= I_SIZE_MAX ==> r == IInt(|v.items|)
    ensures v.IStr? && |v.s| <= I_SIZE_MAX ==> r == IInt(|v.s|)
    ensures !v.IArray? && !v.IStr? && ifaceSize.Some? ==> r == IInt(ifaceSize.value)
    ensures !v.IArray? && !v.IStr? && ifaceSize.None? ==> r == IInt(1)
    ensures r.IErr? ==> r == Err("Size too large") && (v.IArray? || v.IStr?)
  {
    if !v.IArray? && !v.IStr? && ifaceSize.None? then IInt(1)
    else
      var size := if v.IArray? then |v.items| else if v.IStr? then |v.s| else ifaceSize.value;
      if size > I_INT_MAX then Err("Size too large") else IInt(size)
  }

  /**
   * `return [v] [cond]`: records the value to return (the first one
   * recorded wins) and answers the return marker; with a false condition
   * nothing happens.
   */
  method ReturnCallback(bufs: IEnv.ErrBuffers, args: seq<IVal>) returns (r: IVal)
    requires bufs.Valid()
    modifies bufs
    ensures bufs.Valid() && bufs.nTrace == old(bufs.nTrace) && bufs.nArgs == old(bufs.nArgs)
    ensures |args| >= 3 ==> r == Err("Return accepts either 1, 2 or 3 arguments") && bufs.returnVal == old(bufs.returnVal)
    ensures |args| == 2 && !args[1].IBool? ==> r == Err("Return condition must be boolean type") && bufs.returnVal == old(bufs.returnVal)
    ensures |args| == 2 && args[1] == IBool(false) ==> r == INull && bufs.returnVal == old(bufs.returnVal)
    ensures |args| <= 1 || (|args| == 2 && args[1] == IBool(true)) ==>
      && r == IReturnMarker
      && bufs.returnVal == if old(bufs.returnVal).INull? then (if |args| == 0 then INull else args[0]) else old(bufs.returnVal)
  {
    if |args| == 0 {
      bufs.SetReturnVal(INull);
      return IReturnMarker;
    } else if |args| == 1 {
      bufs.SetReturnVal(args[0]);
      return IReturnMarker;
    } else if |args| == 2 {
      if !args[1].IBool? {
        return Err("Return condition must be boolean type");
      }
      if args[1].b {
        bufs.SetReturnVal(args[0]);
        return IReturnMarker;
      }
      return INull;
    }
    return Err("Return accepts either 1, 2 or 3 arguments");
  }
}
