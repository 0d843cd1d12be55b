/**
 * The string library of the older runtime (src/libs/string_lib.c):
 * `endswith?`, `find`, `substring`, `replace` and the growable byte
 * buffer `str_buff` that the copying path of `replace` fills.
 *
 * Strings are byte sequences.  Whether an allocation succeeds is a
 * parameter; the reference count of the string `replace` works on is a
 * parameter too, and the managed string it may rewrite in place is an
 * array holding its bytes.
 */
module StringLib {
  import opened CTypes
  import opened IValues

  // ---------------------------------------------------------------- str_match

  /** `t` occurs in `s` starting at index `k`. */
  predicate OccursAt(s: Bytes, t: Bytes, k: nat)
  {
    k + |t| <= |s| && s[k..k + |t|] == t
  }

  /** `str_match`: refuses when fewer than `|t|` bytes remain, then compares byte by byte. */
  method StrMatch(s: Bytes, at: nat, t: Bytes) returns (b: bool)
    requires at <= |s|
    ensures b <==> OccursAt(s, t, at)
  {
    if |s| - at < |t| {
      return false;
    }
    var j := 0;
    while j < |t|
      invariant 0 <= j <= |t|
      invariant s[at..at + j] == t[..j]
    {
      if s[at + j] != t[j] {
        assert s[at..at + |t|][j] != t[j];
        return false;
      }
      assert s[at..at + j + 1] == s[at..at + j] + [s[at + j]];
      j := j + 1;
    }
    return true;
  }

  // ---------------------------------------------------------------- endswith?

  /** `s` ends with the bytes of `t`. */
  predicate EndsWith(s: Bytes, t: Bytes)
  {
    |t| <= |s| && s[|s| - |t|..] == t
  }

  /**
   * `endswith?`: both arguments must be strings; false when `t` is longer,
   * otherwise the last `|t|` bytes of `s` are compared with `t`.
   */
  method EndsWithCallback(args: seq<IVal>) returns (r: IVal)
    requires |args| == 2
    ensures !args[0].IStr? ==> r == Err("First argument of endswith? must be string")
    ensures args[0].IStr? && !args[1].IStr? ==> r == Err("Second argument of endswith? must be string")
    ensures args[0].IStr? && args[1].IStr? ==> r == IBool(EndsWith(args[0].s, args[1].s))
  {
    if !args[0].IStr? {
      return Err("First argument of endswith? must be string");
    }
    if !args[1].IStr? {
      return Err("Second argument of endswith? must be string");
    }
    var s, t := args[0].s, args[1].s;
    if |t| > |s| {
      return IBool(false);
    }
    var start := |s| - |t|;
    var c := start;
    while c != |s|
      invariant start <= c <= |s|
      invariant s[start..c] == t[..c - start]
    {
      if s[c] != t[c - start] {
        assert s[start..][c - start] != t[c - start];
        return IBool(false);
      }
      c := c + 1;
    }
    assert s[start..] == s[start..c];
    return IBool(true);
  }

  /** Every string ends with whatever was appended last, and with the empty string. */
  lemma EndsWithAppended(u: Bytes, t: Bytes)
    ensures EndsWith(u + t, t) && EndsWith(u, [])
  {
    assert (u + t)[|u|..] == t;
  }

  /** A suffix is found no later than where it ends the string, and exactly there when it occurs nowhere earlier. */
  lemma EndsWithOccurs(s: Bytes, t: Bytes)
    ensures EndsWith(s, t) <==> |t| <= |s| && OccursAt(s, t, |s| - |t|)
  {
    if |t| <= |s| {
      assert s[|s| - |t|..] == s[|s| - |t|..|s| - |t| + |t|];
    }
  }

  // ---------------------------------------------------------------- find

  /** No occurrence of `t` starts before `k`. */
  predicate NoneBefore(s: Bytes, t: Bytes, k: nat)
  {
    forall j :: 0 <= j < k ==> !OccursAt(s, t, j)
  }

  /**
   * `find`: the first index where `t` occurs in `s`, null when it occurs
   * nowhere (in particular when `t` is longer); an index past `I_INT_MAX`
   * is refused.
   */
  method FindCallback(args: seq<IVal>) returns (r: IVal)
    requires |args| == 2
    ensures !args[0].IStr? ==> r == Err("First argument of find must be string")
    ensures args[0].IStr? && !args[1].IStr? ==> r == Err("Second argument of find must be string")
    ensures args[0].IStr? && args[1].IStr? ==>
      var s, t := args[0].s, args[1].s;
      && (r == INull <==> NoneBefore(s, t, |s| + 1))
      && (r.IInt? ==> 0 <= r.i && OccursAt(s, t, r.i) && NoneBefore(s, t, r.i))
      && (r.IErr? ==> r == Err("Index outside integer range"))
      && (r.IInt? || r == INull || r == Err("Index outside integer range"))
  {
    if !args[0].IStr? {
      return Err("First argument of find must be string");
    }
    if !args[1].IStr? {
      return Err("Second argument of find must be string");
    }
    var s, t := args[0].s, args[1].s;
    var k := 0;
    while k + |t| < |s| + 1
      invariant 0 <= k <= |s| + 1
      invariant NoneBefore(s, t, k)
    {
      var hit := StrMatch(s, k, t);
      if hit {
        if k > I_INT_MAX {
          return Err("Index outside integer range");
        }
        return IInt(k);
      }
      k := k + 1;
    }
    return INull;
  }

  /** The empty string is found at index 0 of every string. */
  lemma FindEmpty(s: Bytes)
    ensures OccursAt(s, [], 0) && NoneBefore(s, [], 0)
  {
  }

  /** A string longer than `s` occurs nowhere in it. */
  lemma FindTooLong(s: Bytes, t: Bytes)
    requires |t| > |s|
    ensures NoneBefore(s, t, |s| + 1)
  {
  }

  // ---------------------------------------------------------------- substring

  /**
   * `substring s i j`: the argument types first, then `j < i`, then `i`
   * outside `[0, len]`, then `j > len`; otherwise the bytes `[i, j)` when
   * the allocation succeeds.
   */
  function Substring(args: seq<IVal>, allocOk: bool): (r: IVal)
    requires |args| == 3
    ensures r.IStr? <==>
      && args[0].IStr? && args[1].IInt? && args[2].IInt?
      && 0 <= args[1].i <= args[2].i <= |args[0].s| && args[2].i - args[1].i <= I_SIZE_MAX && allocOk
    ensures r.IStr? ==>
      && |r.s| == args[2].i - args[1].i
      && forall k :: 0 <= k < |r.s| ==> r.s[k] == args[0].s[args[1].i + k]
  {
    if !args[0].IStr? then Err("Expected first argument to be of type string")
    else if !args[1].IInt? then Err("Expected second argument to be of type int")
    else if !args[2].IInt? then Err("Expected third argument to be of type int")
    else
      var s, i, j := args[0].s, args[1].i, args[2].i;
      if j < i then Err("Second index is before first")
      else if i < 0 || i > |s| then Err("First index is out of range")
      else if j > |s| then Err("Second index is out of range")
      else if j - i > I_SIZE_MAX then Err("Substring size too large")
      else if !allocOk then Err("Out of memory")
      else IStr(s[i..j])
  }

  /** `j < i` wins over an out-of-range index. */
  lemma SubstringChecksOrder(s: Bytes, i: i64, j: i64)
    requires j < i
    ensures Substring([IStr(s), IInt(i), IInt(j)], true) == Err("Second index is before first")
  {
  }

  /** Two adjacent substrings make up the substring that spans both. */
  lemma SubstringSplit(s: Bytes, i: i64, j: i64, k: i64)
    requires 0 <= i <= j <= k <= |s| <= I_SIZE_MAX
    ensures Substring([IStr(s), IInt(i), IInt(j)], true).s + Substring([IStr(s), IInt(j), IInt(k)], true).s
      == Substring([IStr(s), IInt(i), IInt(k)], true).s
  {
    assert s[i..j] + s[j..k] == s[i..k];
  }

  /** The substring from 0 to the length is the whole string. */
  lemma SubstringWhole(s: Bytes)
    requires |s| <= I_SIZE_MAX
    ensures Substring([IStr(s), IInt(0), IInt(|s|)], true) == IStr(s)
  {
    var args := [IStr(s), IInt(0), IInt(|s|)];
    assert args[0] == IStr(s) && args[1] == IInt(0) && args[2] == IInt(|s|);
    assert Substring(args, true) == IStr(s[0..|s|]);
    assert s[0..|s|] == s;
  }

  // ---------------------------------------------------------------- str_buff

  /** `(cap * 3) / 2 + min`, the capacity `str_buff_grow` asks for. */
  function GrownCap(cap: nat, min: nat): (r: nat)
    ensures r >= cap + min
  {
    cap * 3 / 2 + min
  }

  /**
   * `struct str_buff`: the allocation `str` (its length is `end - str`)
   * and the number of bytes written, `top - str`.
   */
  class StrBuff {
    var str: array<byte>
    var top: nat

    /** `str <= top <= end`. */
    ghost predicate Valid()
      reads this
    {
      top <= str.Length
    }

    /** The bytes written so far. */
    function Contents(): Bytes
      reads this, str
      requires Valid()
    {
      str[..top]
    }

    /** The `{ NULL, NULL, NULL }` buffer: no allocation, nothing written. */
    constructor Empty()
      ensures Valid() && str.Length == 0 && Contents() == []
    {
      str := new byte[0];
      top := 0;
    }

    /**
     * `str_buff_grow`: reallocates to `cap*3/2 + min` bytes, keeping the
     * contents; a failed reallocation leaves the buffer as it was.
     */
    method Grow(min: nat, allocOk: bool) returns (ok: bool)
      requires Valid()
      modifies this
      ensures Valid() && ok == allocOk
      ensures Contents() == old(Contents())
      ensures ok ==> str.Length == GrownCap(old(str.Length), min) && fresh(str)
      ensures !ok ==> str == old(str) && top == old(top)
    {
      if !allocOk {
        return false;
      }
      var grown := new byte[GrownCap(str.Length, min)];
      var i := 0;
      while i < top
        invariant 0 <= i <= top
        invariant grown[..i] == str[..i]
        modifies grown
      {
        grown[i] := str[i];
        i := i + 1;
      }
      str := grown;
      return true;
    }

    /** `str_buff_init`: an empty buffer with room for `n` bytes. */
    method Init(n: nat, allocOk: bool) returns (ok: bool)
      modifies this
      ensures Valid() && ok == allocOk && Contents() == [] && fresh(str)
      ensures ok ==> str.Length == n
    {
      str := new byte[0];
      top := 0;
      ok := Grow(n, allocOk);
    }

    /** `str_buff_pushc`: appends one byte, growing by at least one first when full. */
    method PushChar(c: byte, allocOk: bool) returns (ok: bool)
      requires Valid()
      modifies this, str
      ensures Valid()
      ensures ok <==> old(top) < old(str.Length) || allocOk
      ensures Contents() == if ok then old(Contents()) + [c] else old(Contents())
      ensures str == old(str) || fresh(str)
    {
      if top == str.Length {
        ok := Grow(1, allocOk);
        if !ok {
          return;
        }
      }
      ghost var before := str[..top];
      str[top] := c;
      top := top + 1;
      assert str[..top] == before + [c];
      return true;
    }

    /** `str_buff_pushs`: appends the bytes of `s`, growing by at least `|s|` first when they do not fit. */
    method PushBytes(s: Bytes, allocOk: bool) returns (ok: bool)
      requires Valid()
      modifies this, str
      ensures Valid()
      ensures ok <==> old(str.Length) - old(top) >= |s| || allocOk
      ensures Contents() == if ok then old(Contents()) + s else old(Contents())
      ensures str == old(str) || fresh(str)
    {
      if str.Length - top < |s| {
        ok := Grow(|s|, allocOk);
        if !ok {
          return;
        }
      }
      Overwrite(str, top, s);
      assert str[..top + |s|] == str[..top] + str[top..top + |s|];
      top := top + |s|;
      return true;
    }
  }

  // ---------------------------------------------------------------- replace

  /**
   * Left-to-right replacement from index `i` on: at each position where
   * `p` occurs, `r` is emitted and the occurrence skipped; otherwise the
   * byte is kept.  Occurrences therefore never overlap.
   */
  function ReplaceFrom(s: Bytes, p: Bytes, r: Bytes, i: nat): Bytes
    requires |p| > 0 && i <= |s|
    decreases |s| - i
  {
    if i == |s| then []
    else if OccursAt(s, p, i) then r + ReplaceFrom(s, p, r, i + |p|)
    else [s[i]] + ReplaceFrom(s, p, r, i + 1)
  }

  /** The result of `replace s p r`: `s` itself for an empty pattern. */
  function ReplaceAll(s: Bytes, p: Bytes, r: Bytes): Bytes
  {
    if |p| == 0 then s else ReplaceFrom(s, p, r, 0)
  }

  /** Where `p` cannot fit any more, the rest is copied unchanged. */
  lemma {:induction false} ReplaceTail(s: Bytes, p: Bytes, r: Bytes, i: nat)
    requires |p| > 0 && i <= |s| && |s| < i + |p|
    ensures ReplaceFrom(s, p, r, i) == s[i..]
    decreases |s| - i
  {
    if i < |s| {
      ReplaceTail(s, p, r, i + 1);
    }
  }

  /** Without an occurrence from `i` on, nothing changes. */
  lemma {:induction false} ReplaceNoOccurrence(s: Bytes, p: Bytes, r: Bytes, i: nat)
    requires |p| > 0 && i <= |s|
    requires forall j :: i <= j < |s| ==> !OccursAt(s, p, j)
    ensures ReplaceFrom(s, p, r, i) == s[i..]
    decreases |s| - i
  {
    if i < |s| {
      ReplaceNoOccurrence(s, p, r, i + 1);
    }
  }

  /** Replacing a pattern by itself gives the string back. */
  lemma {:induction false} ReplaceBySelf(s: Bytes, p: Bytes, i: nat)
    requires |p| > 0 && i <= |s|
    ensures ReplaceFrom(s, p, p, i) == s[i..]
    decreases |s| - i
  {
    if i < |s| {
      if OccursAt(s, p, i) {
        ReplaceBySelf(s, p, i + |p|);
        assert s[i..] == s[i..i + |p|] + s[i + |p|..];
      } else {
        ReplaceBySelf(s, p, i + 1);
      }
    }
  }

  /** A replacement as long as the pattern keeps the length. */
  lemma {:induction false} ReplaceKeepsLength(s: Bytes, p: Bytes, r: Bytes, i: nat)
    requires |p| > 0 && |r| == |p| && i <= |s|
    ensures |ReplaceFrom(s, p, r, i)| == |s| - i
    decreases |s| - i
  {
    if i < |s| {
      if OccursAt(s, p, i) {
        ReplaceKeepsLength(s, p, r, i + |p|);
      } else {
        ReplaceKeepsLength(s, p, r, i + 1);
      }
    }
  }

  /**
   * The in-place path of `replace` (pattern and replacement of equal
   * length, string not shared): scans the string and overwrites each
   * occurrence, skipping past it.  Matching only ever reads bytes not yet
   * written, so the outcome is the left-to-right replacement.
   */
  method ReplaceInPlace(a: array<byte>, p: Bytes, r: Bytes)
    requires |p| > 0 && |r| == |p|
    modifies a
    ensures a[..] == ReplaceFrom(old(a[..]), p, r, 0)
  {
    ghost var orig := a[..];
    var i := 0;
    while i + |p| <= a.Length
      invariant 0 <= i <= a.Length == |orig|
      invariant a[i..] == orig[i..]
      invariant a[..i] + ReplaceFrom(orig, p, r, i) == ReplaceFrom(orig, p, r, 0)
      decreases a.Length - i
    {
      i := ReplaceStep(a, orig, i, p, r);
    }
    ReplaceTail(orig, p, r, i);
    assert a[..] == a[..i] + a[i..];
  }

  /** Sequences that agree from `i` on agree from any later `j` on, and on whether `p` occurs at `i`. */
  lemma AgreeFrom(x: Bytes, y: Bytes, i: nat, j: nat, p: Bytes)
    requires i <= j <= |x| == |y| && x[i..] == y[i..]
    ensures x[j..] == y[j..]
    ensures OccursAt(x, p, i) <==> OccursAt(y, p, i)
  {
    assert x[j..] == x[i..][j - i..];
    assert y[j..] == y[i..][j - i..];
    if i + |p| <= |x| {
      assert x[i..i + |p|] == x[i..][..|p|];
      assert y[i..i + |p|] == y[i..][..|p|];
    }
  }

  /** One position of the in-place scan: overwrite an occurrence and skip it, or move one byte on. */
  method ReplaceStep(a: array<byte>, ghost orig: Bytes, i: nat, p: Bytes, r: Bytes) returns (next: nat)
    requires |p| > 0 && |r| == |p| && i + |p| <= a.Length == |orig|
    requires a[i..] == orig[i..]
    modifies a
    ensures i < next <= a.Length
    ensures a[next..] == orig[next..]
    ensures a[..next] + ReplaceFrom(orig, p, r, next) == old(a[..i]) + ReplaceFrom(orig, p, r, i)
  {
    AgreeFrom(a[..], orig, i, i, p);
    var hit := StrMatch(a[..], i, p);
    if hit {
      ghost var before := a[..];
      Overwrite(a, i, r);
      StepHit(before, a[..], orig, i, p, r);
      next := i + |p|;
    } else {
      StepMiss(a[..], orig, i, p, r);
      next := i + 1;
    }
  }

  /** Overwriting an occurrence at `i` emits `r` and moves past it. */
  lemma StepHit(before: Bytes, after: Bytes, orig: Bytes, i: nat, p: Bytes, r: Bytes)
    requires |p| > 0 && |r| == |p| && i + |p| <= |before| == |after| == |orig|
    requires before[i..] == orig[i..] && OccursAt(orig, p, i)
    requires after[..i] == before[..i] && after[i..i + |r|] == r && after[i + |r|..] == before[i + |r|..]
    ensures after[i + |p|..] == orig[i + |p|..]
    ensures after[..i + |p|] + ReplaceFrom(orig, p, r, i + |p|) == before[..i] + ReplaceFrom(orig, p, r, i)
  {
    AgreeFrom(before, orig, i, i + |p|, p);
    assert after[..i + |p|] == after[..i] + after[i..i + |r|];
  }

  /** Without an occurrence at `i` the byte there is kept. */
  lemma StepMiss(x: Bytes, orig: Bytes, i: nat, p: Bytes, r: Bytes)
    requires |p| > 0 && i < |x| == |orig|
    requires x[i..] == orig[i..] && !OccursAt(orig, p, i)
    ensures x[i + 1..] == orig[i + 1..]
    ensures x[..i + 1] + ReplaceFrom(orig, p, r, i + 1) == x[..i] + ReplaceFrom(orig, p, r, i)
  {
    assert x[i] == orig[i] by {
      assert x[i..][0] == orig[i..][0];
    }
    AgreeFrom(x, orig, i, i + 1, p);
    var rest := ReplaceFrom(orig, p, r, i + 1);
    assert ReplaceFrom(orig, p, r, i) == [orig[i]] + rest;
    assert x[..i + 1] == x[..i] + [orig[i]];
    assert (x[..i] + [orig[i]]) + rest == x[..i] + ([orig[i]] + rest);
  }

  /** `memcpy(a + i, r, |r|)`. */
  method Overwrite(a: array<byte>, i: nat, r: Bytes)
    requires i + |r| <= a.Length
    modifies a
    ensures a[..i] == old(a[..i])
    ensures a[i..i + |r|] == r
    ensures a[i + |r|..] == old(a[i + |r|..])
  {
    var k := 0;
    while k < |r|
      invariant 0 <= k <= |r|
      invariant a[..i] == old(a[..i])
      invariant a[i..i + k] == r[..k]
      invariant a[i + |r|..] == old(a[i + |r|..])
    {
      a[i + k] := r[k];
      k := k + 1;
    }
  }

  /**
   * The copying path of `replace`: a buffer with room for `|s|` bytes,
   * then at each position either the replacement (skipping the
   * occurrence) or the byte.  One allocation answer stands for every
   * allocation on this path.
   */
  method ReplaceCopy(s: Bytes, p: Bytes, r: Bytes, allocOk: bool) returns (res: Option<Bytes>)
    requires |p| > 0
    ensures res == if allocOk then Some(ReplaceFrom(s, p, r, 0)) else None
  {
    var buff := new StrBuff.Empty();
    var ok := buff.Init(|s|, allocOk);
    if !ok {
      return None;
    }
    var i := 0;
    while i < |s|
      invariant 0 <= i <= |s| && buff.Valid()
      invariant buff.Contents() + ReplaceFrom(s, p, r, i) == ReplaceFrom(s, p, r, 0)
      invariant fresh(buff) && fresh(buff.str)
      decreases |s| - i
    {
      i := CopyStep(buff, s, p, r, i);
    }
    assert ReplaceFrom(s, p, r, i) == [];
    assert buff.Contents() == ReplaceFrom(s, p, r, 0);
    return Some(buff.Contents());
  }

  /** One position of the copying scan: push the replacement and skip an occurrence, or push the byte. */
  method CopyStep(buff: StrBuff, s: Bytes, p: Bytes, r: Bytes, i: nat) returns (next: nat)
    requires |p| > 0 && i < |s| && buff.Valid()
    modifies buff, buff.str
    ensures buff.Valid() && i < next <= |s|
    ensures buff.str == old(buff.str) || fresh(buff.str)
    ensures buff.Contents() + ReplaceFrom(s, p, r, next) == old(buff.Contents()) + ReplaceFrom(s, p, r, i)
  {
    ghost var before := buff.Contents();
    var hit := StrMatch(s, i, p);
    var ok: bool;
    ghost var piece: Bytes;
    if hit {
      ok := buff.PushBytes(r, true);
      next, piece := i + |p|, r;
    } else {
      ok := buff.PushChar(s[i], true);
      next, piece := i + 1, [s[i]];
    }
    ghost var rest := ReplaceFrom(s, p, r, next);
    assert (before + piece) + rest == before + (piece + rest);
  }

  /**
   * `replace s p r`: the argument types first; an empty pattern returns
   * `s`; equal lengths on an unshared string rewrite it in place; anything
   * else builds a new string, which needs memory.
   */
  method ReplaceCallback(args: seq<IVal>, refs: nat, allocOk: bool) returns (res: IVal)
    requires |args| == 3
    ensures !args[0].IStr? ==> res == Err("Expected first argument to be of type string")
    ensures args[0].IStr? && !args[1].IStr? ==> res == Err("Expected second argument to be of type string")
    ensures args[0].IStr? && args[1].IStr? && !args[2].IStr? ==> res == Err("Expected third argument to be of type string")
    ensures args[0].IStr? && args[1].IStr? && args[2].IStr? ==>
      var s, p, r := args[0].s, args[1].s, args[2].s;
      res == if |p| == 0 || (|p| == |r| && refs == 1) || allocOk then IStr(ReplaceAll(s, p, r))
             else Err("Out of memory")
  {
    if !args[0].IStr? {
      return Err("Expected first argument to be of type string");
    }
    if !args[1].IStr? {
      return Err("Expected second argument to be of type string");
    }
    if !args[2].IStr? {
      return Err("Expected third argument to be of type string");
    }
    var s, p, r := args[0].s, args[1].s, args[2].s;
    if |p| == 0 {
      return args[0];
    }
    if |p| == |r| && refs == 1 {
      var a := new byte[|s|](k requires 0 <= k < |s| => s[k]);
      assert a[..] == s;
      ReplaceInPlace(a, p, r);
      return IStr(a[..]);
    }
    var out := ReplaceCopy(s, p, r, allocOk);
    if out.None? {
      return Err("Out of memory");
    }
    return IStr(out.value);
  }

  /** Whichever path runs, an equal-length replacement keeps the length, and replacing by the pattern itself changes nothing. */
  lemma ReplaceAllProperties(s: Bytes, p: Bytes, r: Bytes)
    ensures |r| == |p| ==> |ReplaceAll(s, p, r)| == |s|
    ensures ReplaceAll(s, p, p) == s
  {
    if |p| > 0 {
      if |r| == |p| {
        ReplaceKeepsLength(s, p, r, 0);
      }
      ReplaceBySelf(s, p, 0);
    }
  }
}
