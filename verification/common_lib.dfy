/**
 * The common library of the older runtime (src/libs/common_lib.c):
 * `cat+`, `max` / `min`, `parse-int` / `int->str`, `rest:` / `mod:`,
 * `null?`, `expect`, `if?`, `else?`, integer `abs` and `switch`.
 *
 * Whether an allocation succeeds is a parameter; which function `switch`
 * calls is its answer, the call itself is not modelled.
 */
module CommonLib {
  import opened CTypes
  import opened IValues
  import CoreLib

  // ---------------------------------------------------------------- cat+

  /** The bytes of a run of strings, one after the other. */
  function Joined(args: seq<IVal>): (r: Bytes)
    requires forall j :: 0 <= j < |args| ==> args[j].IStr?
  {
    if args == [] then [] else Joined(args[..|args| - 1]) + args[|args| - 1].s
  }

  function TotalLen(args: seq<IVal>): nat
    requires forall j :: 0 <= j < |args| ==> args[j].IStr?
  {
    if args == [] then 0 else TotalLen(args[..|args| - 1]) + |args[|args| - 1].s|
  }

  /** The joined string is as long as the lengths added up. */
  lemma {:induction false} JoinedLen(args: seq<IVal>)
    requires forall j :: 0 <= j < |args| ==> args[j].IStr?
    ensures |Joined(args)| == TotalLen(args)
  {
    if args != [] {
      JoinedLen(args[..|args| - 1]);
    }
  }

  /** Copies `src` into `buf` at offset `p`, leaving the bytes before `p` alone. */
  method CopyInto(buf: array<byte>, p: nat, src: Bytes)
    requires p + |src| <= buf.Length
    modifies buf
    ensures buf[..p] == old(buf[..p])
    ensures buf[p..p + |src|] == src
  {
    var k := 0;
    while k < |src|
      invariant 0 <= k <= |src|
      invariant buf[..p] == old(buf[..p])
      invariant buf[p..p + k] == src[..k]
    {
      buf[p + k] := src[k];
      k := k + 1;
    }
  }

  /** The checking pass of `cat+`: every argument a string, and their total length. */
  method TotalLength(args: seq<IVal>) returns (total: Option<nat>)
    ensures total.None? <==> exists j :: 0 <= j < |args| && !args[j].IStr?
    ensures total.Some? ==> (forall j :: 0 <= j < |args| ==> args[j].IStr?) && total.value == TotalLen(args)
  {
    var sum := 0;
    var i := 0;
    while i < |args|
      invariant 0 <= i <= |args|
      invariant forall j :: 0 <= j < i ==> args[j].IStr?
      invariant sum == TotalLen(args[..i])
    {
      if !args[i].IStr? {
        return None;
      }
      assert args[..i + 1][..i] == args[..i];
      sum := sum + |args[i].s|;
      i := i + 1;
    }
    assert args[..i] == args;
    return Some(sum);
  }

  /**
   * `cat+`: every argument must be a string; the result is their
   * concatenation, refused when longer than `I_SIZE_MAX` or when the
   * allocation fails.
   */
  method Concat(args: seq<IVal>, allocOk: bool) returns (r: IVal)
    ensures (exists j :: 0 <= j < |args| && !args[j].IStr?) ==> r == Err("Can only concatenate strings")
    ensures (forall j :: 0 <= j < |args| ==> args[j].IStr?) ==>
      r == if TotalLen(args) > I_SIZE_MAX then Err("Resulting string is too large")
           else if !allocOk then Err("Out of memory")
           else IStr(Joined(args))
  {
    var checked := TotalLength(args);
    if checked.None? {
      return Err("Can only concatenate strings");
    }
    var total := checked.value;
    if total > I_SIZE_MAX {
      return Err("Resulting string is too large");
    }
    if !allocOk {
      return Err("Out of memory");
    }
    var buf := new byte[total];
    FillJoined(buf, args);
    return IStr(buf[..]);
  }

  /** The copying pass of `cat+`: each string after the previous one. */
  method FillJoined(buf: array<byte>, args: seq<IVal>)
    requires forall j :: 0 <= j < |args| ==> args[j].IStr?
    requires buf.Length == TotalLen(args)
    modifies buf
    ensures buf[..] == Joined(args)
  {
    var p := 0;
    var i := 0;
    while i < |args|
      invariant 0 <= i <= |args| && p == TotalLen(args[..i]) <= buf.Length
      invariant buf[..p] == Joined(args[..i])
    {
      var src := args[i].s;
      PrefixTotal(args, i + 1);
      JoinedStep(args, i);
      CopyInto(buf, p, src);
      assert buf[..p + |src|] == buf[..p] + buf[p..p + |src|];
      p := p + |src|;
      i := i + 1;
    }
    assert args[..i] == args;
    assert buf[..] == buf[..p];
  }

  /** One more string: its bytes after the others, its length added to theirs. */
  lemma JoinedStep(args: seq<IVal>, i: nat)
    requires forall j :: 0 <= j < |args| ==> args[j].IStr?
    requires i < |args|
    ensures Joined(args[..i + 1]) == Joined(args[..i]) + args[i].s
    ensures TotalLen(args[..i + 1]) == TotalLen(args[..i]) + |args[i].s|
  {
    assert args[..i + 1][..i] == args[..i];
  }

  lemma {:induction false} PrefixTotal(args: seq<IVal>, n: nat)
    requires forall j :: 0 <= j < |args| ==> args[j].IStr?
    requires n <= |args|
    ensures TotalLen(args[..n]) <= TotalLen(args)
    decreases |args| - n
  {
    if n < |args| {
      PrefixTotal(args, n + 1);
      assert args[..n + 1][..n] == args[..n];
    } else {
      assert args[..n] == args;
    }
  }

  // ---------------------------------------------------------------- max / min

  predicate AllInts(xs: seq<IVal>) { forall j :: 0 <= j < |xs| ==> xs[j].IInt? }
  predicate AllFloats(xs: seq<IVal>) { forall j :: 0 <= j < |xs| ==> xs[j].IFloat? }

  const INCOMPARABLE_MSG := "Incomparable values"

  /**
   * `max`: the first argument no other exceeds, compared with `i_val_cmp`;
   * with two or more arguments they must be all ints or all floats.
   */
  method MaxOf(args: seq<IVal>) returns (r: IVal)
    requires |args| >= 1
    ensures |args| == 1 ==> r == args[0]
    ensures |args| >= 2 ==> (r == Err(INCOMPARABLE_MSG) <==> !(AllInts(args) || AllFloats(args)))
    ensures |args| >= 2 && (AllInts(args) || AllFloats(args)) ==>
      exists k :: 0 <= k < |args| && r == args[k]
        && (forall j :: 0 <= j < |args| ==> Num(args[j]) <= Num(args[k]))
        && (forall j :: 0 <= j < k ==> Num(args[j]) < Num(args[k]))
  {
    var best := 0;
    var i := 1;
    while i < |args|
      invariant 1 <= i <= |args| && 0 <= best < i
      invariant i >= 2 ==> (forall j :: 0 <= j < i ==> args[j].IInt?) || (forall j :: 0 <= j < i ==> args[j].IFloat?)
      invariant i >= 2 ==> forall j :: 0 <= j < i ==> Num(args[j]) <= Num(args[best])
      invariant i >= 2 ==> forall j :: 0 <= j < best ==> Num(args[j]) < Num(args[best])
    {
      var cmp := ICmp(args[best], args[i]);
      if cmp == 2 {
        return Err(INCOMPARABLE_MSG);
      }
      if cmp == 1 {
        best := i;
      }
      i := i + 1;
    }
    return args[best];
  }

  /** `min`: the first argument below no other, under the same rules as `max`. */
  method MinOf(args: seq<IVal>) returns (r: IVal)
    requires |args| >= 1
    ensures |args| == 1 ==> r == args[0]
    ensures |args| >= 2 ==> (r == Err(INCOMPARABLE_MSG) <==> !(AllInts(args) || AllFloats(args)))
    ensures |args| >= 2 && (AllInts(args) || AllFloats(args)) ==>
      exists k :: 0 <= k < |args| && r == args[k]
        && (forall j :: 0 <= j < |args| ==> Num(args[k]) <= Num(args[j]))
        && (forall j :: 0 <= j < k ==> Num(args[k]) < Num(args[j]))
  {
    var best := 0;
    var i := 1;
    while i < |args|
      invariant 1 <= i <= |args| && 0 <= best < i
      invariant i >= 2 ==> (forall j :: 0 <= j < i ==> args[j].IInt?) || (forall j :: 0 <= j < i ==> args[j].IFloat?)
      invariant i >= 2 ==> forall j :: 0 <= j < i ==> Num(args[best]) <= Num(args[j])
      invariant i >= 2 ==> forall j :: 0 <= j < best ==> Num(args[best]) < Num(args[j])
    {
      var cmp := ICmp(args[best], args[i]);
      if cmp == 2 {
        return Err(INCOMPARABLE_MSG);
      }
      if cmp == -1 {
        best := i;
      }
      i := i + 1;
    }
    return args[best];
  }

  // ---------------------------------------------------------------- parse-int / int->str

  const MINUS: byte := 45
  const ZERO: byte := 48

  /** `char_as_digit`: the value of an ASCII digit, -1 for anything else. */
  function CharAsDigit(c: byte): (d: int)
    ensures -1 <= d <= 9
    ensures d >= 0 <==> ZERO <= c <= ZERO + 9
    ensures d >= 0 ==> c == ZERO + d
  {
    if ZERO <= c <= ZERO + 9 then c - ZERO else -1
  }

  predicate IsDigit(c: byte) { CharAsDigit(c) >= 0 }

  /** The index of the first digit or `'-'` at or after `i`, or `|s|`. */
  function SkipJunk(s: Bytes, i: nat): (k: nat)
    requires i <= |s|
    ensures i <= k <= |s|
    ensures k < |s| ==> IsDigit(s[k]) || s[k] == MINUS
    ensures forall j :: i <= j < k ==> !IsDigit(s[j]) && s[j] != MINUS
    decreases |s| - i
  {
    if i == |s| || IsDigit(s[i]) || s[i] == MINUS then i else SkipJunk(s, i + 1)
  }

  /** The end of the run of digits starting at `i`. */
  function DigitRun(s: Bytes, i: nat): (k: nat)
    requires i <= |s|
    ensures i <= k <= |s|
    ensures forall j :: i <= j < k ==> IsDigit(s[j])
    ensures k < |s| ==> !IsDigit(s[k])
    decreases |s| - i
  {
    if i == |s| || !IsDigit(s[i]) then i else DigitRun(s, i + 1)
  }

  /** The decimal value of a run of digits. */
  function Value(ds: Bytes): nat
    requires forall j :: 0 <= j < |ds| ==> IsDigit(ds[j])
  {
    if ds == [] then 0
    else
      assert IsDigit(ds[|ds| - 1]);
      Value(ds[..|ds| - 1]) * 10 + CharAsDigit(ds[|ds| - 1])
  }

  const TOO_LARGE_MSG := "Integer too large"

  /**
   * `parse-int`: skip anything that is neither a digit nor `'-'`, take an
   * optional `'-'`, then the longest run of digits (none reads as 0); a
   * magnitude above `I_INT_MAX` is an error.
   */
  function ParseInt(s: Bytes): (r: Result<i64>)
  {
    var start := SkipJunk(s, 0);
    var negative := start < |s| && s[start] == MINUS;
    var from := if negative then start + 1 else start;
    var ds := s[from..DigitRun(s, from)];
    var v: int := Value(ds);
    if v > I_INT_MAX then Fail(TOO_LARGE_MSG)
    else Ok(if negative then -v else v)
  }

  /** The accumulation step of `parse-int` refuses exactly the values past `I_INT_MAX`. */
  lemma ValueStep(v: nat, d: nat)
    requires v <= I_INT_MAX && d <= 9
    ensures ((v != 0 && I_INT_MAX / v < 10) || I_INT_MAX - v * 10 < d) <==> v * 10 + d > I_INT_MAX
  {
    if v != 0 {
      CoreLib.DivTest(I_INT_MAX, v, 10);
    }
  }

  /** The overflow test and the step `v = v * 10 + digit` of the digit loop. */
  method Accumulate(v: nat, digit: int) returns (next: Option<nat>)
    requires v <= I_INT_MAX && 0 <= digit <= 9
    ensures next.None? <==> v * 10 + digit > I_INT_MAX
    ensures next.Some? ==> next.value == v * 10 + digit
  {
    ValueStep(v, digit);
    if (v != 0 && I_INT_MAX / v < 10) || I_INT_MAX - v * 10 < digit {
      return None;
    }
    var w := v * 10;
    w := w + digit;
    return Some(w);
  }

  /** The digit loop of `parse_int_callback`: the value of the run of digits at `from`, or `None` past `I_INT_MAX`. */
  method ReadDigits(s: Bytes, from: nat) returns (r: Option<nat>)
    requires from <= |s|
    ensures r.None? <==> Value(s[from..DigitRun(s, from)]) > I_INT_MAX
    ensures r.Some? ==> r.value == Value(s[from..DigitRun(s, from)])
  {
    ghost var run := DigitRun(s, from);
    ghost var ds := s[from..run];
    var v := 0;
    var c := from;
    while c != |s|
      invariant from <= c <= run
      invariant v == Value(ds[..c - from]) <= I_INT_MAX
      decreases |s| - c
    {
      var digit := CharAsDigit(s[c]);
      if digit == -1 {
        break;
      }
      assert c < run;
      assert ds[c - from] == s[c];
      RunStep(ds, c - from);
      var next := Accumulate(v, digit);
      if next.None? {
        ValueGrows(ds, c - from + 1);
        return None;
      }
      v := next.value;
      c := c + 1;
    }
    assert ds[..c - from] == ds;
    return Some(v);
  }

  /** One more digit of a run: ten times the value so far, plus the digit. */
  lemma RunStep(ds: Bytes, k: nat)
    requires k < |ds| && forall j :: 0 <= j < |ds| ==> IsDigit(ds[j])
    ensures Value(ds[..k + 1]) == Value(ds[..k]) * 10 + CharAsDigit(ds[k])
  {
    var run := ds[..k + 1];
    assert run[..|run| - 1] == ds[..k] && run[|run| - 1] == ds[k];
  }

  /** `parse_int_callback`: skip to the first digit or `'-'`, note the sign, read the digits. */
  method ParseIntCallback(arg: IVal) returns (r: IVal)
    ensures !arg.IStr? ==> r == Err("Expected string as argument")
    ensures arg.IStr? ==> r == match ParseInt(arg.s) case Ok(v) => IInt(v) case Fail(m) => Err(m)
  {
    if !arg.IStr? {
      return Err("Expected string as argument");
    }
    var s := arg.s;
    var p := 0;
    while p != |s| && CharAsDigit(s[p]) == -1 && s[p] != MINUS
      invariant 0 <= p <= |s| && SkipJunk(s, p) == SkipJunk(s, 0)
      decreases |s| - p
    {
      p := p + 1;
    }
    var negative := false;
    if p != |s| && s[p] == MINUS {
      negative := true;
      p := p + 1;
    }
    var v := ReadDigits(s, p);
    if v.None? {
      return Err(TOO_LARGE_MSG);
    }
    var val: int := v.value;
    if negative {
      val := -val;
    }
    return IInt(val);
  }

  /** A longer run of digits is worth at least as much as its prefix. */
  lemma {:induction false} ValueGrows(ds: Bytes, n: nat)
    requires forall j :: 0 <= j < |ds| ==> IsDigit(ds[j])
    requires n <= |ds|
    ensures Value(ds[..n]) <= Value(ds)
    decreases |ds| - n
  {
    if n < |ds| {
      ValueGrows(ds, n + 1);
      assert ds[..n + 1][..n] == ds[..n];
    } else {
      assert ds[..n] == ds;
    }
  }

  /** The decimal digits of `m`, most significant first; none for 0. */
  function Digits(m: nat): Bytes
  {
    if m == 0 then [] else Digits(m / 10) + [ZERO + m % 10]
  }

  /** Only digits, and no leading zero. */
  lemma {:induction false} DigitsShape(m: nat)
    ensures forall j :: 0 <= j < |Digits(m)| ==> IsDigit(Digits(m)[j])
    ensures m > 0 ==> |Digits(m)| > 0 && Digits(m)[0] != ZERO
  {
    if m > 0 {
      DigitsShape(m / 10);
      if m / 10 == 0 {
        assert Digits(m) == [ZERO + m % 10];
      }
    }
  }

  /** `int->str`: `"0"`, or an optional `'-'` and the digits of the magnitude. */
  function IntToStr(n: i64): (r: Bytes)
    ensures |r| > 0 && (n < 0 <==> r[0] == MINUS)
    ensures n != 0 ==> r == (if n < 0 then [MINUS] else []) + Digits(Abs(n))
  {
    if n == 0 then [ZERO]
    else
      DigitsShape(Abs(n));
      (if n < 0 then [MINUS] else []) + Digits(Abs(n))
  }

  /** The text of a nonzero `n` has no leading zero, and its length is the digit count plus the sign. */
  lemma IntToStrShape(n: i64)
    requires n != 0
    ensures var r := IntToStr(n); var body := if n < 0 then r[1..] else r;
      && |body| > 0 && body[0] != ZERO && (forall j :: 0 <= j < |body| ==> IsDigit(body[j]))
      && |r| == |Digits(Abs(n))| + (if n < 0 then 1 else 0)
  {
    DigitsShape(Abs(n));
    var r := IntToStr(n);
    if n < 0 {
      assert r[1..] == Digits(Abs(n));
    }
  }

  lemma {:induction false} ValueOfDigits(m: nat)
    ensures forall j :: 0 <= j < |Digits(m)| ==> IsDigit(Digits(m)[j])
    ensures Value(Digits(m)) == m
  {
    DigitsShape(m);
    if m > 0 {
      var ds := Digits(m);
      assert ds[..|ds| - 1] == Digits(m / 10);
      ValueOfDigits(m / 10);
    }
  }

  /** Reading the digits of `m` stops exactly at their end. */
  lemma DigitsRunToEnd(s: Bytes, from: nat)
    requires from <= |s| && forall j :: from <= j < |s| ==> IsDigit(s[j])
    ensures DigitRun(s, from) == |s|
    decreases |s| - from
  {
  }

  /** `[sign] + digits of m`: nothing to skip, the sign where expected, and a run of digits to the end. */
  lemma SignedLayout(m: nat, negative: bool)
    requires m > 0
    ensures var s := (if negative then [MINUS] else []) + Digits(m);
      var from := if negative then 1 else 0;
      && SkipJunk(s, 0) == 0 && (s[0] == MINUS) == negative
      && DigitRun(s, from) == |s| && s[from..|s|] == Digits(m)
  {
    var s := (if negative then [MINUS] else []) + Digits(m);
    var from := if negative then 1 else 0;
    DigitsShape(m);
    assert s[from..] == Digits(m);
    assert s[0] == if negative then MINUS else Digits(m)[0];
    assert SkipJunk(s, 0) == 0;
    forall j | from <= j < |s|
      ensures IsDigit(s[j])
    {
      assert s[j] == Digits(m)[j - from];
    }
    DigitsRunToEnd(s, from);
  }

  /** Parsing `[sign] + digits of m` reads back the sign and `m`. */
  lemma ParseSigned(m: nat, negative: bool)
    requires m > 0
    ensures var s := (if negative then [MINUS] else []) + Digits(m);
      ParseInt(s) == if m > I_INT_MAX then Fail(TOO_LARGE_MSG) else Ok(if negative then 0 - m else m)
  {
    var s := (if negative then [MINUS] else []) + Digits(m);
    SignedLayout(m, negative);
    ValueOfDigits(m);
    var start := SkipJunk(s, 0);
    var neg := start < |s| && s[start] == MINUS;
    assert neg == negative;
    var from := if neg then start + 1 else start;
    var ds := s[from..DigitRun(s, from)];
    assert ds == Digits(m);
    assert Value(ds) == m;
  }

  /** `parse-int (int->str n) == n` for every `n` except `I_INT_MIN`. */
  lemma ParseIntToStr(n: i64)
    requires n != I_INT_MIN
    ensures ParseInt(IntToStr(n)) == Ok(n)
  {
    if n == 0 {
      var s := IntToStr(n);
      assert SkipJunk(s, 0) == 0;
      assert DigitRun(s, 0) == 1;
      assert s[0..1] == [ZERO];
      assert Value([ZERO]) == Value([]) * 10 + 0;
    } else {
      ParseSigned(Abs(n), n < 0);
    }
  }

  /** The one exception: the digits of `I_INT_MIN` exceed `I_INT_MAX`. */
  lemma ParseIntMinFails()
    ensures ParseInt(IntToStr(I_INT_MIN)) == Fail(TOO_LARGE_MSG)
  {
    ParseSigned(Abs(I_INT_MIN), true);
  }

  /** The counting loop of `int_to_str_callback`: how many digits `val` has. */
  method CountDigits(val: nat) returns (count: nat)
    ensures count == |Digits(val)|
  {
    count := 0;
    var i := val;
    while i != 0
      invariant count + |Digits(i)| == |Digits(val)|
    {
      count := count + 1;
      i := i / 10;
    }
  }

  /** The writing loop of `int_to_str_callback`: the digits of `val` into `buf[start..]`, last digit first. */
  method WriteDigits(buf: array<byte>, start: nat, val: nat)
    requires start + |Digits(val)| == buf.Length
    modifies buf
    ensures buf[..start] == old(buf[..start])
    ensures buf[start..] == Digits(val)
  {
    var c := buf.Length - 1;
    var v := val;
    while c >= start
      invariant start - 1 <= c < buf.Length
      invariant |Digits(v)| == c + 1 - start
      invariant Digits(val) == Digits(v) + buf[c + 1..]
      invariant buf[..start] == old(buf[..start])
    {
      WriteStep(val, v, buf[c + 1..]);
      buf[c] := ZERO + v % 10;
      assert buf[c..] == [buf[c]] + buf[c + 1..];
      v := v / 10;
      c := c - 1;
    }
  }

  /** Writing the last digit of `v` in front of the digits already written. */
  lemma WriteStep(val: nat, v: nat, rest: Bytes)
    requires |Digits(v)| > 0 && Digits(val) == Digits(v) + rest
    ensures Digits(val) == Digits(v / 10) + ([ZERO + v % 10] + rest)
    ensures |Digits(v / 10)| == |Digits(v)| - 1
  {
  }

  /**
   * `int_to_str_callback`: counts the digits of the magnitude, then writes
   * them from the end of a fresh buffer, after a `'-'` for a negative
   * value.  The magnitude of `I_INT_MIN` is taken as the target's
   * two's-complement negation yields it, 2^63.
   */
  method IntToStrCallback(arg: IVal, allocOk: bool) returns (r: IVal)
    ensures !arg.IInt? ==> r == Err("Expected integer as argument")
    ensures arg.IInt? && arg.i == 0 ==> r == IStr([ZERO])
    ensures arg.IInt? && arg.i != 0 ==> r == if allocOk then IStr(IntToStr(arg.i)) else Err("Out of memory")
  {
    if !arg.IInt? {
      return Err("Expected integer as argument");
    }
    var n := arg.i;
    var negative := n < 0;
    var val: nat := Abs(n);
    if n == 0 {
      return IStr([ZERO]);
    }
    var count := CountDigits(val);
    var size := if negative then count + 1 else count;
    if !allocOk {
      return Err("Out of memory");
    }
    var buf := new byte[size];
    var start := 0;
    if negative {
      buf[0] := MINUS;
      start := 1;
    }
    WriteDigits(buf, start, val);
    assert buf[..] == buf[..start] + buf[start..];
    return IStr(buf[..]);
  }

  // ---------------------------------------------------------------- rest: / mod:

  /** The argument checks `rest:` and `mod:` share. */
  function DivisionArgs(a: IVal, b: IVal): (r: Option<IVal>)
    ensures r.None? <==> a.IInt? && b.IInt? && b.i != 0 && !(a.i == I_INT_MIN && b.i == -1)
  {
    if !a.IInt? then Some(Err("First argument must be integer"))
    else if !b.IInt? then Some(Err("Second argument must be integer"))
    else if b.i == 0 then Some(Err("Second argument must not be zero"))
    else if a.i == I_INT_MIN && b.i == -1 then Some(Err("Integer overflow"))
    else None
  }

  lemma {:induction false} MulAtLeast(a: nat, b: nat)
    requires a >= 1
    ensures a * b >= b
  {
    if a > 1 {
      MulAtLeast(a - 1, b);
      assert a * b == (a - 1) * b + b;
    }
  }

  /** A nonzero multiple of `d` is at least as large as `d`. */
  lemma AbsMulGe(x: int, d: int)
    requires x != 0
    ensures Abs(x * d) >= Abs(d)
  {
    MulAtLeast(Abs(x), Abs(d));
    assert Abs(x * d) == Abs(x) * Abs(d) by {
      if x < 0 && d < 0 {
        assert x * d == (-x) * (-d);
      } else if x < 0 {
        assert x * d == -((-x) * d);
      } else if d < 0 {
        assert x * d == -(x * (-d));
      }
    }
  }

  /** A multiple of `d` leaves no remainder. */
  lemma MulMod(q: int, d: int)
    requires d != 0
    ensures (q * d) % d == 0
  {
    var k, m := (q * d) / d, (q * d) % d;
    assert q * d == k * d + m && 0 <= m < Abs(d);
    assert (q - k) * d == m;
    if q != k {
      AbsMulGe(q - k, d);
    }
  }

  /** The C99 remainder differs from the dividend by a multiple of the divisor. */
  lemma RemCongruent(i: int, d: int)
    requires d != 0
    ensures (CRem(i, d) - i) % d == 0
  {
    var q := CDiv(i, d);
    assert CRem(i, d) - i == (-q) * d;
    MulMod(-q, d);
  }

  /** `rest:`: C's remainder, which has the dividend's sign and is smaller than the divisor. */
  function Rest(a: IVal, b: IVal): (r: IVal)
    ensures DivisionArgs(a, b).Some? ==> r == DivisionArgs(a, b).value
    ensures DivisionArgs(a, b).None? ==>
      && r.IInt? && Abs(r.i) < Abs(b.i) && (r.i - a.i) % b.i == 0
      && (a.i >= 0 ==> r.i >= 0) && (a.i <= 0 ==> r.i <= 0)
  {
    var check := DivisionArgs(a, b);
    if check.Some? then check.value
    else
      CRemBounds(a.i, b.i);
      RemCongruent(a.i, b.i);
      IInt(CRem(a.i, b.i))
  }

  /** `(i % d + d) % d` with the intermediate sum in `long long` arithmetic. */
  function ModValue(i: i64, d: i64): i64
    requires d != 0
  {
    CRemBounds(i, d);
    var s := WrapI64(CRem(i, d) + d);
    CRemBounds(s, d);
    CRem(s, d)
  }

  /** `mod:`: the checks of `rest:`, then `(i % d + d) % d`. */
  function Mod(a: IVal, b: IVal): (r: IVal)
    ensures DivisionArgs(a, b).Some? ==> r == DivisionArgs(a, b).value
    ensures DivisionArgs(a, b).None? ==> r == IInt(ModValue(a.i, b.i))
  {
    var check := DivisionArgs(a, b);
    if check.Some? then check.value else IInt(ModValue(a.i, b.i))
  }

  /**
   * For a positive divisor whose intermediate sum does not overflow, `mod:`
   * is the mathematical modulus: in `[0, d)` and congruent to `i`.
   */
  lemma ModPositive(i: i64, d: i64)
    requires d > 0 && CRem(i, d) + d <= I_INT_MAX
    ensures 0 <= ModValue(i, d) < d
    ensures (ModValue(i, d) - i) % d == 0
  {
    CRemBounds(i, d);
    var s := CRem(i, d) + d;
    assert WrapI64(s) == s;
    CRemBounds(s, d);
    var qs, qi := CDiv(s, d), CDiv(i, d);
    assert ModValue(i, d) - i == (1 - qs - qi) * d by {
      assert CRem(s, d) == s - qs * d;
      assert CRem(i, d) == i - qi * d;
      assert (1 - qs - qi) * d == d - qs * d - qi * d;
    }
    MulMod(1 - qs - qi, d);
  }

  /** For a positive divisor close to `I_INT_MAX` the sum wraps: `mod: 1 I_INT_MAX` is -1, not 1. */
  lemma ModOverflows()
    ensures ModValue(1, I_INT_MAX) == -1
  {
    assert CDiv(1, I_INT_MAX) == 0;
    assert CRem(1, I_INT_MAX) == 1;
    assert WrapI64(1 + I_INT_MAX) == I_INT_MIN;
    assert CDiv(I_INT_MIN, I_INT_MAX) == -1;
  }

  // ---------------------------------------------------------------- small callbacks

  /** `null?`: true exactly when some argument is null. */
  method NullCheck(args: seq<IVal>) returns (r: bool)
    ensures r <==> exists j :: 0 <= j < |args| && args[j].INull?
  {
    var i := 0;
    while i < |args|
      invariant 0 <= i <= |args| && forall j :: 0 <= j < i ==> !args[j].INull?
    {
      if args[i].INull? {
        return true;
      }
      i := i + 1;
    }
    return false;
  }

  /** `expect`: null when no argument is null, else the error `"Value is null"`. */
  method Expect(args: seq<IVal>) returns (r: IVal)
    ensures r == INull <==> forall j :: 0 <= j < |args| ==> !args[j].INull?
    ensures r != INull ==> r == Err("Value is null")
  {
    var i := 0;
    while i < |args|
      invariant 0 <= i <= |args| && forall j :: 0 <= j < i ==> !args[j].INull?
    {
      if args[i].INull? {
        return Err("Value is null");
      }
      i := i + 1;
    }
    return INull;
  }

  /** `if? x c`: `x` when `c` is true, null when false, an error when `c` is not a bool. */
  function InlineIf(x: IVal, c: IVal): (r: IVal)
    ensures c == IBool(true) ==> r == x
    ensures c == IBool(false) ==> r == INull
    ensures !c.IBool? ==> r == Err("Expected boolean as condition for if?")
  {
    if !c.IBool? then Err("Expected boolean as condition for if?")
    else if c.b then x else INull
  }

  /** `else? a b`: `b` exactly when `a` is null. */
  function InlineElse(a: IVal, b: IVal): (r: IVal)
    ensures a.INull? ==> r == b
    ensures !a.INull? ==> r == a
  {
    if a.INull? then b else a
  }

  /** `if?` followed by `else?` picks between two values on a condition (when the value is not null). */
  lemma IfElse(x: IVal, y: IVal, c: bool)
    requires !x.INull?
    ensures InlineElse(InlineIf(x, IBool(c)), y) == if c then x else y
  {
  }

  /** Integer `abs`: the magnitude, an error only for `I_INT_MIN`; floats lose their sign. */
  function AbsVal(v: IVal): (r: IVal)
    ensures v.IInt? && v.i != I_INT_MIN ==> r == IInt(Abs(v.i))
    ensures v.IInt? && v.i == I_INT_MIN ==> r == Err("Integer overflow")
    ensures v.IFloat? ==> r.IFloat? && r.f >= 0.0 && (r.f == v.f || r.f == -v.f)
    ensures !v.IInt? && !v.IFloat? ==> r == Err("Expected either integer or floating point number")
  {
    if v.IInt? then
      if v.i < 0 then
        (if v.i < -I_INT_MAX then Err("Integer overflow") else IInt(-v.i))
      else v
    else if v.IFloat? then
      (if v.f < 0.0 then IFloat(-v.f) else v)
    else Err("Expected either integer or floating point number")
  }

  // ---------------------------------------------------------------- switch

  /**
   * `switch v c1 f1 c2 f2 ... [default]`: calls the function after the first
   * case `i_val_eq` to `v`; with an even argument count the last argument is
   * the default; otherwise null.
   */
  method Switch(args: seq<IVal>) returns (r: CoreLib.Outcome)
    requires |args| >= 1
    ensures r.CallArg? ==> 0 < r.k < |args|
    ensures r.CallArg? && r.k % 2 == 0 ==>
      IEq(args[0], args[r.k - 1]) && forall j :: 1 <= j < r.k - 1 && j % 2 == 1 ==> !IEq(args[0], args[j])
    ensures r.CallArg? && r.k % 2 == 1 ==>
      r.k == |args| - 1 && |args| % 2 == 0 && forall j :: 1 <= j < |args| - 1 && j % 2 == 1 ==> !IEq(args[0], args[j])
    ensures r.Value? ==>
      r.v == INull && |args| % 2 == 1 && forall j :: 1 <= j < |args| - 1 && j % 2 == 1 ==> !IEq(args[0], args[j])
  {
    var v := args[0];
    var i := 1;
    while i < |args| - 1
      invariant 1 <= i <= |args| && i % 2 == 1
      invariant forall j :: 1 <= j < i && j % 2 == 1 ==> !IEq(v, args[j])
    {
      if IEq(v, args[i]) {
        return CoreLib.CallArg(i + 1);
      }
      i := i + 2;
    }
    if |args| % 2 == 0 {
      return CoreLib.CallArg(|args| - 1);
    }
    return CoreLib.Value(INull);
  }
}
