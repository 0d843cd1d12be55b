/**
 * Machine-level vocabulary shared by every part of the Beryl model:
 * bytes as the C code sees them, fixed-width unsigned wrap-around,
 * the integer limits of the two runtimes' headers, and the Result type
 * used for the error values returned by library callbacks.
 */
module CTypes {

  /** One byte of a C string, as an unsigned value. */
  type byte = b: int | 0 <= b < 256

  type Bytes = seq<byte>

  /** The value of a plain `char` on a target where `char` is signed (x86-64, the usual ABI). */
  function SignedChar(b: byte): (c: int)
    ensures -128 <= c < 128
    ensures c % 256 == b
  {
    if b < 128 then b else b - 256
  }

  /** The bytes of an ASCII literal written in the C source. */
  function Lit(s: string): (r: Bytes)
    ensures |r| == |s|
    ensures forall i :: 0 <= i < |s| ==> r[i] == (s[i] as int) % 256
  {
    seq(|s|, i requires 0 <= i < |s| => (s[i] as int) % 256)
  }

  // Limits from src/interpreter.h and src/beryl.h
  const I_INT_MAX: int := 0x7FFF_FFFF_FFFF_FFFF
  const I_INT_MIN: int := -0x8000_0000_0000_0000
  const U32: int := 0x1_0000_0000
  const U64: int := 0x1_0000_0000_0000_0000
  /** i_size is `unsigned int` in both runtimes. */
  const I_SIZE_MAX: int := U32 - 1

  predicate IsInt64(x: int) { I_INT_MIN <= x <= I_INT_MAX }

  /** `i_size` (`unsigned int`). */
  type u32 = x: int | 0 <= x < U32

  /** `i_int` (`long long`). */
  type i64 = x: int | I_INT_MIN <= x <= I_INT_MAX

  /** Two's-complement wrap-around of a `long long` result, as the target's hardware produces it. */
  function WrapI64(x: int): (r: i64)
    ensures IsInt64(x) ==> r == x
    ensures (r - x) % U64 == 0
  {
    var m := (x - I_INT_MIN) % U64;
    m + I_INT_MIN
  }

  /** Wrapping subtracts a multiple of 2^64. */
  lemma WrapIs(x: int)
    ensures WrapI64(x) == x - ((x - I_INT_MIN) / U64) * U64
  {
  }

  /** Adding a multiple of 2^64 does not change the wrapped value. */
  lemma WrapShift(x: int, q: int)
    ensures WrapI64(x + q * U64) == WrapI64(x)
  {
    var a := x - I_INT_MIN;
    var d, m := a / U64, a % U64;
    assert a + q * U64 == (d + q) * U64 + m;
    assert (a + q * U64) % U64 == m;
  }

  /** Values that differ by a multiple of 2^64 wrap alike. */
  lemma WrapShifted(a: int, b: int, q: int)
    requires a == b + q * U64
    ensures WrapI64(a) == WrapI64(b)
  {
    WrapShift(b, q);
  }

  /** Adding to a wrapped value and wrapping again is adding and wrapping once. */
  lemma WrapAdd(x: int, step: int)
    ensures WrapI64(WrapI64(x) + step) == WrapI64(x + step)
  {
    var d := (x - I_INT_MIN) / U64;
    WrapIs(x);
    WrapShifted(WrapI64(x) + step, x + step, -d);
  }

  /** `long long` addition as the target performs it: the sum, wrapped past either end. */
  function AddI64(a: i64, b: i64): i64
  {
    var x := a + b;
    if x > I_INT_MAX then x - U64 else if x < I_INT_MIN then x + U64 else x
  }

  /** `AddI64` is the wrapped sum. */
  lemma AddI64Wraps(a: i64, b: i64)
    ensures AddI64(a, b) == WrapI64(a + b)
  {
    var x := a + b;
    if x > I_INT_MAX {
      WrapShifted(x, x - U64, 1);
    } else if x < I_INT_MIN {
      WrapShifted(x, x + U64, -1);
    }
  }

  /** Adding to a wrapped value as the target does is wrapping the exact sum. */
  lemma AddWrapped(v: i64, x: int, step: i64)
    requires v == WrapI64(x)
    ensures AddI64(v, step) == WrapI64(x + step)
  {
    AddI64Wraps(v, step);
    WrapAdd(x, step);
  }

  /** `unsigned int` arithmetic: the result is reduced modulo 2^32. */
  function Wrap32(x: int): (r: nat)
    ensures r < U32
    ensures 0 <= x < U32 ==> r == x
  {
    x % U32
  }

  /** `size_t` / `unsigned long long` arithmetic: reduced modulo 2^64. */
  function Wrap64(x: int): (r: nat)
    ensures r < U64
    ensures 0 <= x < U64 ==> r == x
  {
    x % U64
  }

  /** C99 integer division truncates toward zero. */
  function CDiv(a: int, b: int): int
    requires b != 0
  {
    if (a >= 0) == (b > 0) then Abs(a) / Abs(b) else -(Abs(a) / Abs(b))
  }

  /** C99 remainder: what is left after truncating division. */
  function CRem(a: int, b: int): int
    requires b != 0
  {
    a - CDiv(a, b) * b
  }

  /** The C99 remainder is the remainder of the magnitudes, with the dividend's sign. */
  lemma CRemMagnitude(a: int, b: int)
    requires b != 0
    ensures CRem(a, b) == if a >= 0 then Abs(a) % Abs(b) else -(Abs(a) % Abs(b))
  {
    var A: int, B: int := Abs(a), Abs(b);
    var q0: int := A / B;
    var p: int := q0 * B;
    assert A % B == A - p;
    if b > 0 {
      assert q0 * b == p;
    } else {
      assert q0 * b == -p;
    }
  }

  /** The C99 remainder is smaller than the divisor and takes the dividend's sign. */
  lemma CRemBounds(a: int, b: int)
    requires b != 0
    ensures Abs(CRem(a, b)) < Abs(b)
    ensures a >= 0 ==> 0 <= CRem(a, b)
    ensures a <= 0 ==> CRem(a, b) <= 0
    ensures Abs(CRem(a, b)) == Abs(a) % Abs(b)
  {
    CRemMagnitude(a, b);
  }

  function Abs(x: int): (r: nat)
    ensures r == x || r == -x
  {
    if x < 0 then -x else x
  }

  function Min(a: int, b: int): int { if a < b then a else b }
  function Max(a: int, b: int): int { if a > b then a else b }

  /** Failure-compatible result: `Fail(msg)` stands for an error value with message `msg`. */
  datatype Result<+T> = Ok(value: T) | Fail(msg: string) {
    predicate IsFailure() { Fail? }
    function PropagateFailure<U>(): Result<U>
      requires Fail?
    {
      Fail(msg)
    }
    function Extract(): T
      requires Ok?
    {
      value
    }
  }

  datatype Option<+T> = None | Some(value: T)
}
