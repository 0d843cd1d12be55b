/**
 * Values of the newer runtime (src/beryl.c, src/beryl.h): the structural
 * three-way comparison `beryl_val_cmp`, `cmp_len_strs`, the `%N` format
 * expander `beryl_i_vals_printf`, `beryl_new_string` and `beryl_new_tag`.
 *
 * A value is described by its contents; storage details (inline versus
 * managed strings, reference counts, static arrays) live in the modules
 * that need them.  Numbers are doubles in the source and `real`s here: only
 * their ordering is used, and NaN is not modelled.
 */
module BerylValues {
  import opened CTypes

  /** `BERYL_INLINE_STR_MAX_LEN`: `sizeof(void*)` on a 64-bit target. */
  const INLINE_STR_MAX_LEN: nat := 8

  /** `beryl_tag` is `unsigned long long`; the counter stops at `ULLONG_MAX`. */
  const MAX_TAGS: nat := U64 - 1

  /** The type enum of src/beryl.h, in declaration order. */
  datatype ValType =
    | TypeNull | TypeNumber | TypeBool | TypeStr | TypeTable | TypeArray | TypeTag
    | TypeFn | TypeExtFn | TypeObject | TypeErr

  datatype Val =
    | VNull
    | VNumber(n: real)
    | VBool(b: bool)
    | VStr(s: Bytes)
    /** A table: its slots in index order, an empty slot having a null key. */
    | VTable(slots: seq<Slot>)
    | VArray(items: seq<Val>)
    | VTag(tag: nat)
    /** A script function, identified by where its source text starts. */
    | VFn(src: nat)
    /** An external (C) function, identified by its callback. */
    | VExtFn(callback: nat)
    /** An object: its class's name. */
    | VObject(className: Bytes)
    | VErr(msg: Bytes)
  {
    function TypeOf(): ValType
    {
      match this
      case VNull => TypeNull
      case VNumber(_) => TypeNumber
      case VBool(_) => TypeBool
      case VStr(_) => TypeStr
      case VTable(_) => TypeTable
      case VArray(_) => TypeArray
      case VTag(_) => TypeTag
      case VFn(_) => TypeFn
      case VExtFn(_) => TypeExtFn
      case VObject(_) => TypeObject
      case VErr(_) => TypeErr
    }
  }

  /** One `i_val_pair` of a table. */
  datatype Slot = Slot(key: Val, val: Val)

  // ---------------------------------------------------------------- comparison

  /**
   * Byte strings ordered as `beryl_val_cmp` orders them: the first differing
   * byte decides (as a signed `char`), otherwise the shorter is smaller.
   * -1 means `a` is larger, 1 means `b` is larger, 0 equal.
   */
  function StrCmp(a: Bytes, b: Bytes): (r: int)
    ensures r in {-1, 0, 1}
    ensures r == 0 <==> a == b
    decreases |a|
  {
    if a == [] && b == [] then 0
    else if a == [] then 1
    else if b == [] then -1
    else if a[0] != b[0] then (if SignedChar(a[0]) > SignedChar(b[0]) then -1 else 1)
    else
      var r := StrCmp(a[1..], b[1..]);
      assert r == 0 ==> a == [a[0]] + a[1..] == [b[0]] + b[1..] == b;
      r
  }

  /** `beryl_val_cmp` as a definition: 2 means incomparable (or unequal and unordered). */
  function Cmp(a: Val, b: Val): (r: int)
    ensures r in {-1, 0, 1, 2}
    decreases a, 1
  {
    if a.TypeOf() != b.TypeOf() then 2
    else
      match a
      case VNull => 0
      case VBool(x) => if x == b.b then 0 else 2
      case VTag(x) => if x == b.tag then 0 else 2
      case VNumber(x) => if x == b.n then 0 else if x > b.n then -1 else 1
      case VStr(x) => StrCmp(x, b.s)
      case VArray(xs) => ArrCmp(xs, b.items)
      case _ => 2
  }

  /** Arrays: the first element pair that is ordered or incomparable decides; otherwise length. */
  function ArrCmp(xs: seq<Val>, ys: seq<Val>): (r: int)
    ensures r in {-1, 0, 1, 2}
    decreases xs, 0
  {
    if xs == [] && ys == [] then 0
    else if xs == [] then 1
    else if ys == [] then -1
    else
      var c := Cmp(xs[0], ys[0]);
      if c != 0 then c else ArrCmp(xs[1..], ys[1..])
  }

  /** Values `beryl_val_cmp` can compare with themselves: no tables, functions, objects or errors inside. */
  predicate Comparable(v: Val)
  {
    match v
    case VNull => true
    case VBool(_) => true
    case VTag(_) => true
    case VNumber(_) => true
    case VStr(_) => true
    case VArray(items) => forall i :: 0 <= i < |items| ==> Comparable(items[i])
    case _ => false
  }

  /** `beryl_val_cmp` reports equality exactly for equal comparable values. */
  lemma {:induction false} CmpZeroIffEqual(a: Val, b: Val)
    ensures Cmp(a, b) == 0 <==> a == b && Comparable(a)
    decreases a, 1
  {
    if a.TypeOf() == b.TypeOf() && a.VArray? {
      ArrCmpZeroIffEqual(a.items, b.items);
    }
  }

  lemma {:induction false} ArrCmpZeroIffEqual(xs: seq<Val>, ys: seq<Val>)
    ensures ArrCmp(xs, ys) == 0 <==> xs == ys && forall i :: 0 <= i < |xs| ==> Comparable(xs[i])
    decreases xs, 0
  {
    if xs != [] && ys != [] {
      CmpZeroIffEqual(xs[0], ys[0]);
      ArrCmpZeroIffEqual(xs[1..], ys[1..]);
      if xs == ys && forall i :: 0 <= i < |xs| ==> Comparable(xs[i]) {
        forall j | 0 <= j < |xs| - 1
          ensures Comparable(xs[1..][j])
        {
          assert xs[1..][j] == xs[j + 1];
        }
      }
      if ArrCmp(xs, ys) == 0 {
        assert xs == [xs[0]] + xs[1..] && ys == [ys[0]] + ys[1..];
        forall i | 0 <= i < |xs|
          ensures Comparable(xs[i])
        {
          if i > 0 {
            assert xs[i] == xs[1..][i - 1];
          }
        }
      }
    }
  }

  /** Swapping the operands flips the order and keeps incomparability. */
  lemma {:induction false} CmpAntisymmetric(a: Val, b: Val)
    ensures Cmp(a, b) == 2 <==> Cmp(b, a) == 2
    ensures Cmp(a, b) != 2 ==> Cmp(b, a) == -Cmp(a, b)
    decreases a, 1
  {
    if a.TypeOf() == b.TypeOf() {
      match a
      case VStr(x) => StrCmpAntisymmetric(x, b.s);
      case VArray(xs) => ArrCmpAntisymmetric(xs, b.items);
      case _ =>
    }
  }

  lemma {:induction false} ArrCmpAntisymmetric(xs: seq<Val>, ys: seq<Val>)
    ensures ArrCmp(xs, ys) == 2 <==> ArrCmp(ys, xs) == 2
    ensures ArrCmp(xs, ys) != 2 ==> ArrCmp(ys, xs) == -ArrCmp(xs, ys)
    decreases xs, 0
  {
    if xs != [] && ys != [] {
      CmpAntisymmetric(xs[0], ys[0]);
      ArrCmpAntisymmetric(xs[1..], ys[1..]);
    }
  }

  lemma {:induction false} StrCmpAntisymmetric(a: Bytes, b: Bytes)
    ensures StrCmp(b, a) == -StrCmp(a, b)
    decreases |a|
  {
    if a != [] && b != [] && a[0] == b[0] {
      StrCmpAntisymmetric(a[1..], b[1..]);
    }
  }

  /** A proper prefix is the smaller string. */
  lemma {:induction false} StrCmpPrefix(a: Bytes, b: Bytes)
    requires |a| < |b| && a == b[..|a|]
    ensures StrCmp(a, b) == 1
    decreases |a|
  {
    if a != [] {
      assert a[1..] == b[1..][..|a| - 1];
      StrCmpPrefix(a[1..], b[1..]);
    }
  }

  /** Strings: the first differing byte decides, compared as a signed `char`. */
  lemma {:induction false} StrCmpFirstDifference(a: Bytes, b: Bytes, i: nat)
    requires i < |a| && i < |b| && a[..i] == b[..i] && a[i] != b[i]
    ensures StrCmp(a, b) == (if SignedChar(a[i]) > SignedChar(b[i]) then -1 else 1)
    decreases i
  {
    if i > 0 {
      assert a[1..][..i - 1] == a[..i][1..] == b[..i][1..] == b[1..][..i - 1];
      assert a[0] == a[..i][0] == b[..i][0] == b[0];
      StrCmpFirstDifference(a[1..], b[1..], i - 1);
    }
  }

  /** Arrays: an incomparable element pair before any ordered one makes the arrays incomparable. */
  lemma {:induction false} ArrCmpIncomparable(xs: seq<Val>, ys: seq<Val>, i: nat)
    requires i < |xs| && i < |ys|
    requires forall j :: 0 <= j < i ==> Cmp(xs[j], ys[j]) == 0
    requires Cmp(xs[i], ys[i]) == 2
    ensures ArrCmp(xs, ys) == 2
    decreases i
  {
    if i > 0 {
      ArrCmpIncomparable(xs[1..], ys[1..], i - 1);
    }
  }

  /** `cmp_len_strs`: byte-wise equality of two counted strings. */
  method CmpLenStrs(a: Bytes, b: Bytes) returns (eq: bool)
    ensures eq <==> a == b
  {
    if |a| != |b| {
      return false;
    }
    var i := 0;
    while i < |a|
      invariant 0 <= i <= |a|
      invariant a[..i] == b[..i]
    {
      if a[i] != b[i] {
        return false;
      }
      i := i + 1;
    }
    assert a == a[..i] && b == b[..i];
    return true;
  }

  /** `beryl_val_cmp`, with its element loops; array elements are compared recursively. */
  method ValCmp(a: Val, b: Val) returns (r: int)
    ensures r == Cmp(a, b)
    decreases a
  {
    if a.TypeOf() != b.TypeOf() {
      return 2;
    }
    match a
    case VNull => return 0;
    case VBool(x) => return if x == b.b then 0 else 2;
    case VTag(x) => return if x == b.tag then 0 else 2;
    case VNumber(x) =>
      if x == b.n {
        return 0;
      }
      if x > b.n {
        return -1;
      }
      return 1;
    case VStr(sa) =>
      var sb := b.s;
      var minl := Min(|sa|, |sb|);
      var i := 0;
      while i < minl
        invariant 0 <= i <= minl
        invariant StrCmp(sa[i..], sb[i..]) == StrCmp(sa, sb)
      {
        if sa[i] != sb[i] {
          if SignedChar(sa[i]) > SignedChar(sb[i]) {
            return -1;
          }
          return 1;
        }
        assert sa[i..][1..] == sa[i + 1..] && sb[i..][1..] == sb[i + 1..];
        i := i + 1;
      }
      if |sa| == |sb| {
        return 0;
      }
      if |sa| > |sb| {
        return -1;
      }
      return 1;
    case VArray(xs) =>
      var ys := b.items;
      var minl := Min(|xs|, |ys|);
      var i := 0;
      while i < minl
        invariant 0 <= i <= minl
        invariant ArrCmp(xs[i..], ys[i..]) == ArrCmp(xs, ys)
      {
        assert xs[i] in xs;
        var cmp := ValCmp(xs[i], ys[i]);
        if cmp == -1 || cmp == 1 {
          return cmp;
        }
        if cmp == 2 {
          return 2;
        }
        assert xs[i..][1..] == xs[i + 1..] && ys[i..][1..] == ys[i + 1..];
        i := i + 1;
      }
      if |xs| == |ys| {
        return 0;
      }
      if |xs| > |ys| {
        return -1;
      }
      return 1;
    case _ => return 2;
  }

  // ---------------------------------------------------------------- %N formatting

  /** What `beryl_i_vals_printf` hands to its output callbacks: a run of bytes or a value. */
  datatype Emit = Run(bytes: Bytes) | Value(v: Val)

  /** The output stream, one byte or one value at a time. */
  datatype Out = OutByte(b: byte) | OutVal(v: Val)

  function BytesOut(bs: Bytes): seq<Out>
  {
    if bs == [] then [] else [OutByte(bs[0])] + BytesOut(bs[1..])
  }

  function EmitOut(e: Emit): seq<Out>
  {
    if e.Run? then BytesOut(e.bytes) else [OutVal(e.v)]
  }

  /** The output stream that a sequence of emits produces. */
  function Flatten(es: seq<Emit>): seq<Out>
  {
    if es == [] then [] else Flatten(es[..|es| - 1]) + EmitOut(es[|es| - 1])
  }

  predicate NoEmptyRuns(es: seq<Emit>)
  {
    forall k :: 0 <= k < |es| ==> es[k].Run? ==> es[k].bytes != []
  }

  lemma FlattenSnoc(es: seq<Emit>, e: Emit)
    ensures Flatten(es + [e]) == Flatten(es) + EmitOut(e)
  {
    assert (es + [e])[..|es|] == es;
  }

  lemma NoEmptyRunsSnoc(es: seq<Emit>, e: Emit)
    requires NoEmptyRuns(es) && (e.Run? ==> e.bytes != [])
    ensures NoEmptyRuns(es + [e])
  {
  }

  /**
   * The expansion of a format string from position `i`: text is copied,
   * `%d` becomes `vals[d]` when `d < |vals|` and nothing otherwise, `%` and a
   * non-digit vanish together, and a `%` at the very end stays.
   */
  function Expand(s: Bytes, vals: seq<Val>, i: nat): seq<Out>
    requires i <= |s|
    decreases |s| - i
  {
    if i == |s| then []
    else if s[i] == '%' as int && i != |s| - 1 then
      DirectiveOut(s[i + 1], vals) + Expand(s, vals, i + 2)
    else [OutByte(s[i])] + Expand(s, vals, i + 1)
  }

  predicate IsDecimalDigit(d: byte) { '0' as int <= d <= '9' as int }

  /** What `%d` prints: the `d`-th value when there is one. */
  function DirectiveOut(d: byte, vals: seq<Val>): seq<Out>
  {
    if IsDecimalDigit(d) && d - '0' as int < |vals| then [OutVal(vals[d - '0' as int])] else []
  }

  lemma {:induction false} BytesOutSnoc(bs: Bytes, b: byte)
    ensures BytesOut(bs + [b]) == BytesOut(bs) + [OutByte(b)]
  {
    if bs != [] {
      assert (bs + [b])[1..] == bs[1..] + [b];
      BytesOutSnoc(bs[1..], b);
    }
  }

  /** The text collected since `prev` and not yet printed. */
  function Pending(s: Bytes, prev: Option<nat>, c: nat): seq<Out>
    requires prev.Some? ==> prev.value <= c <= |s|
  {
    if prev.Some? then BytesOut(s[prev.value..c]) else []
  }

  /** Appending a plain byte to the pending text. */
  lemma PendingStep(s: Bytes, vals: seq<Val>, prev: nat, c: nat)
    requires prev <= c < |s|
    requires !(s[c] == '%' as int && c != |s| - 1)
    ensures Pending(s, Some(prev), c + 1) == Pending(s, Some(prev), c) + [OutByte(s[c])]
    ensures Expand(s, vals, c) == [OutByte(s[c])] + Expand(s, vals, c + 1)
  {
    assert s[prev..c + 1] == s[prev..c] + [s[c]];
    BytesOutSnoc(s[prev..c], s[c]);
  }

  lemma PlainStep(done: seq<Out>, s: Bytes, vals: seq<Val>, c: nat)
    requires c < |s| && !(s[c] == '%' as int && c != |s| - 1)
    ensures (done + [OutByte(s[c])]) + Expand(s, vals, c + 1) == done + Expand(s, vals, c)
  {
  }

  lemma DirectiveStep(done: seq<Out>, s: Bytes, vals: seq<Val>, c: nat)
    requires c + 1 < |s| && s[c] == '%' as int
    ensures (done + DirectiveOut(s[c + 1], vals)) + Expand(s, vals, c + 2) == done + Expand(s, vals, c)
  {
  }

  /** Prints the pending text, if any, as one run (`print_bytes(f, prev, c - prev)`). */
  method FlushPending(s: Bytes, out: seq<Emit>, prev: Option<nat>, c: nat, ghost done: seq<Out>)
    returns (out': seq<Emit>)
    requires prev.Some? ==> prev.value < c <= |s|
    requires Flatten(out) + Pending(s, prev, c) == done && NoEmptyRuns(out)
    ensures Flatten(out') == done && NoEmptyRuns(out')
  {
    out' := out;
    if prev.Some? {
      FlattenSnoc(out, Run(s[prev.value..c]));
      NoEmptyRunsSnoc(out, Run(s[prev.value..c]));
      out' := out + [Run(s[prev.value..c])];
    }
  }

  /** The `%` branch: the character after `%` is consumed, and a digit selects a value. */
  method PrintDirective(s: Bytes, vals: seq<Val>, out: seq<Emit>, c: nat, ghost done: seq<Out>)
    returns (out': seq<Emit>, ghost done': seq<Out>)
    requires c + 1 < |s| && s[c] == '%' as int
    requires Flatten(out) == done && NoEmptyRuns(out)
    requires done + Expand(s, vals, c) == Expand(s, vals, 0)
    ensures Flatten(out') == done' && NoEmptyRuns(out')
    ensures done' + Expand(s, vals, c + 2) == Expand(s, vals, 0)
  {
    DirectiveStep(done, s, vals, c);
    done' := done + DirectiveOut(s[c + 1], vals);
    out' := out;
    if s[c + 1] < '0' as int || s[c + 1] > '9' as int {
      return;
    }
    var i := s[c + 1] - '0' as int;
    if i < |vals| {
      FlattenSnoc(out, Value(vals[i]));
      NoEmptyRunsSnoc(out, Value(vals[i]));
      out' := out + [Value(vals[i])];
    }
  }

  /** Any other byte joins the pending text, which starts here if there is none. */
  method PlainByte(s: Bytes, vals: seq<Val>, out: seq<Emit>, prev: Option<nat>, c: nat, ghost done: seq<Out>)
    returns (prev': Option<nat>, ghost done': seq<Out>)
    requires c < |s| && !(s[c] == '%' as int && c != |s| - 1)
    requires prev.Some? ==> prev.value < c
    requires Flatten(out) + Pending(s, prev, c) == done
    requires done + Expand(s, vals, c) == Expand(s, vals, 0)
    ensures prev'.Some? && prev'.value < c + 1
    ensures Flatten(out) + Pending(s, prev', c + 1) == done'
    ensures done' + Expand(s, vals, c + 1) == Expand(s, vals, 0)
  {
    prev' := if prev.None? then Some(c) else prev;
    PendingStep(s, vals, prev'.value, c);
    PlainStep(done, s, vals, c);
    assert Flatten(out) + Pending(s, prev', c + 1) == (Flatten(out) + Pending(s, prev', c)) + [OutByte(s[c])];
    done' := done + [OutByte(s[c])];
  }

  /** `beryl_i_vals_printf`: emits runs of text and the selected values, in order. */
  method IValsPrintf(s: Bytes, vals: seq<Val>) returns (out: seq<Emit>)
    requires |vals| <= 10
    ensures Flatten(out) == Expand(s, vals, 0)
    ensures NoEmptyRuns(out)
  {
    out := [];
    var prev: Option<nat> := None;
    var c := 0;
    ghost var done: seq<Out> := [];
    while c < |s|
      invariant 0 <= c <= |s|
      invariant prev.Some? ==> prev.value < c
      invariant Flatten(out) + Pending(s, prev, c) == done
      invariant done + Expand(s, vals, c) == Expand(s, vals, 0)
      invariant NoEmptyRuns(out)
    {
      if s[c] == '%' as int && c != |s| - 1 {
        out := FlushPending(s, out, prev, c, done);
        prev := None;
        out, done := PrintDirective(s, vals, out, c, done);
        c := c + 2;
      } else {
        prev, done := PlainByte(s, vals, out, prev, c, done);
        c := c + 1;
      }
    }
    out := FlushPending(s, out, prev, c, done);
  }

  /** Text without `%` is emitted verbatim. */
  lemma {:induction false} ExpandPlainText(s: Bytes, vals: seq<Val>, i: nat)
    requires i <= |s|
    requires forall k :: i <= k < |s| ==> s[k] != '%' as int
    ensures Expand(s, vals, i) == BytesOut(s[i..])
    decreases |s| - i
  {
    if i < |s| {
      ExpandPlainText(s, vals, i + 1);
      assert s[i..] == [s[i]] + s[i + 1..];
    }
  }

  /** A `%` that ends the format string is printed as is. */
  lemma ExpandTrailingPercent(s: Bytes, vals: seq<Val>)
    requires |s| > 0 && s[|s| - 1] == '%' as int
    ensures Expand(s, vals, |s| - 1) == [OutByte('%' as int)]
  {
  }

  // ---------------------------------------------------------------- strings and tags

  /**
   * `beryl_new_string`: strings up to the inline limit live inside the value
   * and need no allocation; longer ones are allocated (`allocOk` is the
   * allocator's answer) and a failure yields null.  The bytes are copied
   * from `from` when given; otherwise their contents are unspecified.
   */
  method NewString(len: nat, from: Option<Bytes>, allocOk: bool) returns (r: Val)
    requires from.Some? ==> len <= |from.value|
    ensures r == VNull <==> len > INLINE_STR_MAX_LEN && !allocOk
    ensures r != VNull ==> r.VStr? && |r.s| == len
    ensures r != VNull && from.Some? ==> r.s == from.value[..len]
  {
    if len > INLINE_STR_MAX_LEN && !allocOk {
      return VNull;
    }
    var str: seq<byte> := seq(len, _ => 0);
    if from.Some? {
      var i := 0;
      while i < len
        invariant 0 <= i <= len && |str| == len
        invariant str[..i] == from.value[..i]
      {
        str := str[i := from.value[i]];
        i := i + 1;
      }
    }
    return VStr(str);
  }

  /** The counter behind `beryl_new_tag`. */
  class TagSource {
    var counter: nat

    ghost predicate Valid()
      reads this
    {
      counter <= MAX_TAGS
    }

    constructor ()
      ensures Valid() && counter == 0
    {
      counter := 0;
    }

    /** `beryl_new_tag`: a tag never handed out before, or null once the counter is exhausted. */
    method NewTag() returns (t: Val)
      requires Valid()
      modifies this
      ensures Valid()
      ensures old(counter) == MAX_TAGS ==> t == VNull && counter == old(counter)
      ensures old(counter) < MAX_TAGS ==> t == VTag(old(counter)) && counter == old(counter) + 1
    {
      if counter == MAX_TAGS {
        return VNull;
      }
      t := VTag(counter);
      counter := counter + 1;
    }
  }
}
