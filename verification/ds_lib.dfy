/**
 * The array functions of the data-structures library of the older runtime
 * (src/libs/datastructures_lib.c): the array constructor, `push:`, `pop`,
 * `join:`, `peek`, `map`, `filter`, `arrayof`, `foreach-in`, `in?`, and
 * the argument checks of `union:`.
 *
 * An array value is a view of `len` items at the start of a managed
 * buffer; the buffer has a capacity and a reference count.  A buffer held
 * only by the argument (reference count 1) is reused and updated in
 * place; any other is copied into a fresh buffer first.  The script
 * function passed to `map`, `filter`, `arrayof` and `foreach-in` is a
 * parameter `call` from argument lists to results; allocation success is
 * the parameter `allocOk`.
 */
module DsLib {
  import opened CTypes
  import opened IValues
  import DsTable

  /** `i_managed_array`: item slots (their number is the capacity) and a reference count. */
  class ArrBuf {
    const items: array<IVal>
    const refs: nat

    /** A fresh buffer of `cap` slots held once; the slots start out null. */
    constructor (cap: nat)
      ensures items.Length == cap && refs == 1 && fresh(items)
    {
      items := new IVal[cap](_ => INull);
      refs := 1;
    }
  }

  /** A value handed to or returned by a library function: an array view, a table, or any other value. */
  datatype DVal =
    | Simple(v: IVal)
    | ArrayVal(buf: ArrBuf, len: nat)
    | TableVal(t: DsTable.Table)

  /** An array view fits its buffer, whose capacity is an `i_size`. */
  predicate ArrayOk(d: DVal)
  {
    d.ArrayVal? ==> d.len <= d.buf.items.Length < U32
  }

  /** The items an array value holds. */
  function Contents(d: DVal): seq<IVal>
    requires d.ArrayVal? && ArrayOk(d)
    reads d.buf.items
  {
    d.buf.items[..d.len]
  }

  /** What a call may write: the buffer of an array argument. */
  function Frame(d: DVal): set<object>
  {
    if d.ArrayVal? then {d.buf.items} else {}
  }

  /** The script function called with one argument. */
  function One(call: seq<IVal> -> IVal): IVal -> IVal
  {
    x => call([x])
  }

  /** The script function called with two arguments. */
  function Two(call: seq<IVal> -> IVal): (IVal, IVal) -> IVal
  {
    (x, y) => call([x, y])
  }

  // ---------------------------------------------------------------- buffers

  /** Copies `src` into `dst` from slot `at`, leaving the other slots alone. */
  method CopyItems(dst: array<IVal>, at: nat, src: seq<IVal>)
    requires at + |src| <= dst.Length
    modifies dst
    ensures dst[..at] == old(dst[..at]) && dst[at..at + |src|] == src
    ensures dst[at + |src|..] == old(dst[at + |src|..])
  {
    var i := 0;
    while i < |src|
      invariant 0 <= i <= |src|
      invariant dst[..at] == old(dst[..at]) && dst[at..at + i] == src[..i]
      invariant dst[at + |src|..] == old(dst[at + |src|..])
    {
      dst[at + i] := src[i];
      i := i + 1;
      assert dst[at..at + i] == dst[at..at + i - 1] + [dst[at + i - 1]];
    }
  }

  /**
   * `i_val_managed_array(from, len, cap)`: a fresh buffer of `cap` slots
   * held once, the first `len` of them copied from `from` when given;
   * nothing when the allocation fails.
   */
  method ManagedArray(from: Option<seq<IVal>>, len: nat, cap: nat, allocOk: bool) returns (r: DVal)
    requires len <= cap < U32
    requires from.Some? ==> |from.value| == len
    ensures r == Simple(INull) <==> !allocOk
    ensures r.ArrayVal? <==> allocOk
    ensures r.ArrayVal? ==>
      && fresh(r.buf) && fresh(r.buf.items) && r.buf.refs == 1
      && r.len == len && r.buf.items.Length == cap && ArrayOk(r)
    ensures r.ArrayVal? && from.Some? ==> Contents(r) == from.value
  {
    if !allocOk {
      return Simple(INull);
    }
    var buf := new ArrBuf(cap);
    if from.Some? {
      CopyItems(buf.items, 0, from.value);
    }
    return ArrayVal(buf, len);
  }

  /** The array constructor (`array`, `;`): an array of exactly the arguments. */
  method ArrayConstruct(args: seq<IVal>, allocOk: bool) returns (r: DVal)
    ensures |args| > I_SIZE_MAX ==> r == Simple(Err("Too many arguments"))
    ensures |args| <= I_SIZE_MAX ==> (r == Simple(Err("Out of memory")) <==> !allocOk)
    ensures |args| <= I_SIZE_MAX && allocOk ==>
      && r.ArrayVal? && fresh(r.buf) && ArrayOk(r)
      && Contents(r) == args && r.buf.items.Length == |args|
  {
    if |args| > I_SIZE_MAX {
      return Simple(Err("Too many arguments"));
    }
    r := ManagedArray(Some(args), |args|, |args|, allocOk);
    if r.Simple? {
      return Simple(Err("Out of memory"));
    }
  }

  // ---------------------------------------------------------------- push, pop, join, peek

  /** The capacity `push:` gives a copied array: `max(len + 1, len * 3 / 2)` in `i_size` arithmetic. */
  function PushCap(len: nat): (cap: nat)
    requires len < I_SIZE_MAX
    ensures len < cap < U32
  {
    Max(len + 1, Wrap32(len * 3) / 2)
  }

  /** Without wrap-around a copied array grows by half. */
  lemma PushCapGrows(len: nat)
    requires 2 <= len && len * 3 < U32
    ensures PushCap(len) == len * 3 / 2 > len
  {
  }

  /**
   * `push:`: appends `item`, in place when the buffer is held once and
   * has a free slot, otherwise in a copy with room to grow.
   */
  method Push(arr: DVal, item: IVal, allocOk: bool) returns (r: DVal)
    requires ArrayOk(arr)
    modifies Frame(arr)
    ensures !arr.ArrayVal? ==> r == Simple(Err("First argument of push must be array"))
    ensures arr.ArrayVal? && arr.len == I_SIZE_MAX ==> r == Simple(Err("Array size overflow"))
    ensures arr.ArrayVal? && arr.len < I_SIZE_MAX ==>
      var inPlace := arr.buf.refs == 1 && arr.buf.items.Length > arr.len;
      && (r == Simple(Err("Out of memory")) <==> !inPlace && !allocOk)
      && (r.ArrayVal? <==> inPlace || allocOk)
      && (r.ArrayVal? ==> ArrayOk(r) && Contents(r) == old(Contents(arr)) + [item])
      && (inPlace ==> r.buf == arr.buf && arr.buf.items[arr.len + 1..] == old(arr.buf.items[arr.len + 1..]))
      && (!inPlace ==> arr.buf.items[..] == old(arr.buf.items[..]))
      && (!inPlace && allocOk ==> fresh(r.buf) && r.buf.refs == 1 && r.buf.items.Length == PushCap(arr.len))
  {
    if !arr.ArrayVal? {
      return Simple(Err("First argument of push must be array"));
    }
    var len := arr.len;
    if len == I_SIZE_MAX {
      return Simple(Err("Array size overflow"));
    }
    var buf := arr.buf;
    if buf.refs == 1 && buf.items.Length > len {
      buf.items[len] := item;
      return ArrayVal(buf, len + 1);
    }
    var copy := ManagedArray(Some(buf.items[..len]), len, PushCap(len), allocOk);
    if copy.Simple? {
      return Simple(Err("Out of memory"));
    }
    copy.buf.items[len] := item;
    return ArrayVal(copy.buf, len + 1);
  }

  /**
   * `pop`: drops the last item, by shortening the view when the buffer
   * is held once and otherwise into an exact-size copy.
   */
  method Pop(arr: DVal, allocOk: bool) returns (r: DVal)
    requires ArrayOk(arr)
    ensures !arr.ArrayVal? ==> r == Simple(Err("Can only pop arrays"))
    ensures arr.ArrayVal? && arr.len == 0 ==> r == Simple(Err("Cannot pop empty array"))
    ensures arr.ArrayVal? && arr.len > 0 ==>
      && (r == Simple(Err("Out of memory")) <==> arr.buf.refs != 1 && !allocOk)
      && (r.ArrayVal? <==> arr.buf.refs == 1 || allocOk)
      && (r.ArrayVal? ==> ArrayOk(r) && Contents(r) == Contents(arr)[..arr.len - 1])
      && (arr.buf.refs == 1 ==> r.buf == arr.buf)
      && (arr.buf.refs != 1 && allocOk ==> fresh(r.buf) && r.buf.items.Length == arr.len - 1)
  {
    if !arr.ArrayVal? {
      return Simple(Err("Can only pop arrays"));
    }
    var len := arr.len;
    if len == 0 {
      return Simple(Err("Cannot pop empty array"));
    }
    if arr.buf.refs == 1 {
      return ArrayVal(arr.buf, len - 1);
    }
    r := ManagedArray(Some(arr.buf.items[..len - 1]), len - 1, len - 1, allocOk);
    if r.Simple? {
      return Simple(Err("Out of memory"));
    }
  }

  /** `join:`: a fresh array holding the first array's items and then the second's. */
  method Join(a: DVal, b: DVal, allocOk: bool) returns (r: DVal)
    requires ArrayOk(a) && ArrayOk(b)
    ensures !a.ArrayVal? ==> r == Simple(Err("First argument of join must be array"))
    ensures a.ArrayVal? && !b.ArrayVal? ==> r == Simple(Err("Second argument of join must be array"))
    ensures a.ArrayVal? && b.ArrayVal? && a.len + b.len > I_SIZE_MAX ==>
      r == Simple(Err("Resulting array would be too large"))
    ensures a.ArrayVal? && b.ArrayVal? && a.len + b.len <= I_SIZE_MAX ==>
      && (r == Simple(Err("Out of memory")) <==> !allocOk)
      && (allocOk ==> r.ArrayVal? && fresh(r.buf) && ArrayOk(r) && Contents(r) == Contents(a) + Contents(b))
  {
    if !a.ArrayVal? {
      return Simple(Err("First argument of join must be array"));
    }
    if !b.ArrayVal? {
      return Simple(Err("Second argument of join must be array"));
    }
    var len1, len2 := a.len, b.len;
    if I_SIZE_MAX - len1 < len2 {
      return Simple(Err("Resulting array would be too large"));
    }
    r := ManagedArray(None, len1 + len2, len1 + len2, allocOk);
    if r.Simple? {
      return Simple(Err("Out of memory"));
    }
    var first, second := a.buf.items[..len1], b.buf.items[..len2];
    CopyItems(r.buf.items, 0, first);
    CopyItems(r.buf.items, len1, second);
    assert r.buf.items[..len1 + len2] == r.buf.items[..len1] + r.buf.items[len1..len1 + len2];
  }

  /** `peek`: the last item. */
  method Peek(arr: DVal) returns (r: IVal)
    requires ArrayOk(arr)
    ensures !arr.ArrayVal? ==> r == Err("Can only peek arrays")
    ensures arr.ArrayVal? && arr.len == 0 ==> r == Err("Cannot peek empty array")
    ensures arr.ArrayVal? && arr.len > 0 ==> r == Contents(arr)[arr.len - 1]
  {
    if !arr.ArrayVal? {
      return Err("Can only peek arrays");
    }
    if arr.len == 0 {
      return Err("Cannot peek empty array");
    }
    return arr.buf.items[arr.len - 1];
  }

  // ---------------------------------------------------------------- map, filter, arrayof

  /** Where a run over the items stops: at an error value, or with the values collected. */
  datatype Outcome = Raised(err: IVal) | Done(items: seq<IVal>)

  /**
   * The items `map` produces: `f` applied to each item in order, the
   * first error ending the run.
   */
  function MapAll(xs: seq<IVal>, f: IVal -> IVal): (o: Outcome)
    ensures o.Done? ==> |o.items| == |xs|
    ensures o.Raised? ==> o.err.IErr?
  {
    if xs == [] then Done([])
    else
      var init := xs[..|xs| - 1];
      match MapAll(init, f)
      case Raised(e) => Raised(e)
      case Done(ys) =>
        var r := f(xs[|xs| - 1]);
        if r.IErr? then Raised(r) else Done(ys + [r])
  }

  /** A map run completes exactly when no item errs, and then holds each item's result in place. */
  lemma {:induction false} MapAllItems(xs: seq<IVal>, f: IVal -> IVal)
    ensures MapAll(xs, f).Done? <==> forall i :: 0 <= i < |xs| ==> !f(xs[i]).IErr?
    ensures MapAll(xs, f).Done? ==> forall i :: 0 <= i < |xs| ==> MapAll(xs, f).items[i] == f(xs[i])
  {
    if xs != [] {
      var init := xs[..|xs| - 1];
      MapAllItems(init, f);
      assert forall i :: 0 <= i < |init| ==> init[i] == xs[i];
    }
  }

  /** One more item: the map run over a longer prefix. */
  lemma MapExtend(xs: seq<IVal>, i: nat, f: IVal -> IVal)
    requires i < |xs| && MapAll(xs[..i], f).Done?
    ensures MapAll(xs[..i + 1], f) ==
      if f(xs[i]).IErr? then Raised(f(xs[i])) else Done(MapAll(xs[..i], f).items + [f(xs[i])])
  {
    assert xs[..i + 1][..i] == xs[..i];
  }

  /** The error a map run stops with is the first item's error. */
  lemma {:induction false} MapFirstError(xs: seq<IVal>, f: IVal -> IVal, k: nat)
    requires k < |xs| && f(xs[k]).IErr?
    requires forall i :: 0 <= i < k ==> !f(xs[i]).IErr?
    ensures MapAll(xs, f) == Raised(f(xs[k]))
  {
    var init := xs[..|xs| - 1];
    if k < |xs| - 1 {
      MapFirstError(init, f, k);
    } else {
      assert forall i :: 0 <= i < |init| ==> init[i] == xs[i];
      MapAllItems(init, f);
    }
  }

  /** A map run that stopped on a prefix stops there on the whole sequence. */
  lemma {:induction false} MapRaisedSticks(xs: seq<IVal>, f: IVal -> IVal, n: nat)
    requires n <= |xs| && MapAll(xs[..n], f).Raised?
    ensures MapAll(xs, f) == MapAll(xs[..n], f)
    decreases |xs| - n
  {
    if n < |xs| {
      assert xs[..n + 1][..n] == xs[..n];
      MapRaisedSticks(xs, f, n + 1);
    } else {
      assert xs[..n] == xs;
    }
  }

  const FILTER_MSG := "Filter result must be boolean"

  /**
   * The items `filter` keeps: those for which `f` answers true, in
   * order; the run stops at the first answer that is an error (given
   * back) or not a boolean.
   */
  function FilterAll(xs: seq<IVal>, f: IVal -> IVal): (o: Outcome)
    ensures o.Done? ==> |o.items| <= |xs|
    ensures o.Raised? ==> o.err.IErr?
  {
    if xs == [] then Done([])
    else
      var init := xs[..|xs| - 1];
      match FilterAll(init, f)
      case Raised(e) => Raised(e)
      case Done(ys) =>
        var x := xs[|xs| - 1];
        var r := f(x);
        if r.IErr? then Raised(r)
        else if !r.IBool? then Raised(Err(FILTER_MSG))
        else if r.b then Done(ys + [x])
        else Done(ys)
  }

  /**
   * A filter run completes exactly when every answer is a boolean, and
   * then keeps exactly the items answered true.
   */
  lemma {:induction false} FilterAllKeeps(xs: seq<IVal>, f: IVal -> IVal)
    ensures FilterAll(xs, f).Done? <==> forall i :: 0 <= i < |xs| ==> f(xs[i]).IBool?
    ensures FilterAll(xs, f).Done? ==>
      forall y :: y in FilterAll(xs, f).items ==> y in xs && f(y) == IBool(true)
    ensures FilterAll(xs, f).Done? ==>
      forall i :: 0 <= i < |xs| && f(xs[i]) == IBool(true) ==> xs[i] in FilterAll(xs, f).items
  {
    if xs != [] {
      var init := xs[..|xs| - 1];
      FilterAllKeeps(init, f);
      assert forall i :: 0 <= i < |init| ==> init[i] == xs[i];
      assert xs == init + [xs[|xs| - 1]];
    }
  }

  /** One more item: the filter run over a longer prefix. */
  lemma FilterExtend(xs: seq<IVal>, i: nat, f: IVal -> IVal)
    requires i < |xs| && FilterAll(xs[..i], f).Done?
    ensures FilterAll(xs[..i + 1], f) ==
      var r := f(xs[i]);
      if r.IErr? then Raised(r)
      else if !r.IBool? then Raised(Err(FILTER_MSG))
      else if r.b then Done(FilterAll(xs[..i], f).items + [xs[i]])
      else FilterAll(xs[..i], f)
  {
    assert xs[..i + 1][..i] == xs[..i];
  }

  /** A filter run stops at the first answer that is not a boolean. */
  lemma {:induction false} FilterFirstError(xs: seq<IVal>, f: IVal -> IVal, k: nat)
    requires k < |xs| && !f(xs[k]).IBool?
    requires forall i :: 0 <= i < k ==> f(xs[i]).IBool?
    ensures FilterAll(xs, f) == Raised(if f(xs[k]).IErr? then f(xs[k]) else Err(FILTER_MSG))
  {
    var init := xs[..|xs| - 1];
    if k < |xs| - 1 {
      FilterFirstError(init, f, k);
    } else {
      assert forall i :: 0 <= i < |init| ==> init[i] == xs[i];
      FilterAllKeeps(init, f);
    }
  }

  /** A filter run that stopped on a prefix stops there on the whole sequence. */
  lemma {:induction false} FilterRaisedSticks(xs: seq<IVal>, f: IVal -> IVal, n: nat)
    requires n <= |xs| && FilterAll(xs[..n], f).Raised?
    ensures FilterAll(xs, f) == FilterAll(xs[..n], f)
    decreases |xs| - n
  {
    if n < |xs| {
      assert xs[..n + 1][..n] == xs[..n];
      FilterRaisedSticks(xs, f, n + 1);
    } else {
      assert xs[..n] == xs;
    }
  }

  /** Filtering with an answer that is always true keeps every item. */
  lemma {:induction false} FilterAllTrue(xs: seq<IVal>, f: IVal -> IVal)
    requires forall i :: 0 <= i < |xs| ==> f(xs[i]) == IBool(true)
    ensures FilterAll(xs, f) == Done(xs)
  {
    if xs != [] {
      var init := xs[..|xs| - 1];
      assert forall i :: 0 <= i < |init| ==> init[i] == xs[i];
      FilterAllTrue(init, f);
      assert init + [xs[|xs| - 1]] == xs;
    }
  }

  /** The in-place pass of `map_array`: each item replaced by its result, stopping at the first error. */
  method MapInPlace(buf: ArrBuf, len: nat, f: IVal -> IVal) returns (o: Outcome)
    requires len <= buf.items.Length
    modifies buf.items
    ensures o == MapAll(old(buf.items[..len]), f)
    ensures o.Done? ==> buf.items[..len] == o.items
    ensures buf.items[len..] == old(buf.items[len..])
  {
    ghost var orig := buf.items[..len];
    var i := 0;
    while i < len
      invariant 0 <= i <= len
      invariant MapAll(orig[..i], f) == Done(buf.items[..i])
      invariant buf.items[i..] == old(buf.items[i..])
    {
      assert buf.items[i] == orig[i] by {
        assert buf.items[i..][0] == old(buf.items[i..])[0];
      }
      MapExtend(orig, i, f);
      var res := f(buf.items[i]);
      if res.IErr? {
        MapRaisedSticks(orig, f, i + 1);
        return Raised(res);
      }
      buf.items[i] := res;
      i := i + 1;
      assert buf.items[..i] == buf.items[..i - 1] + [res];
    }
    assert orig[..i] == orig;
    return Done(buf.items[..len]);
  }

  /** The copying pass of `map_array`: the results written into `dst`, stopping at the first error. */
  method MapInto(dst: array<IVal>, src: seq<IVal>, f: IVal -> IVal) returns (o: Outcome)
    requires |src| <= dst.Length
    modifies dst
    ensures o == MapAll(src, f)
    ensures o.Done? ==> dst[..|src|] == o.items
  {
    var i := 0;
    while i < |src|
      invariant 0 <= i <= |src|
      invariant MapAll(src[..i], f) == Done(dst[..i])
    {
      MapExtend(src, i, f);
      var res := f(src[i]);
      if res.IErr? {
        MapRaisedSticks(src, f, i + 1);
        return Raised(res);
      }
      dst[i] := res;
      i := i + 1;
      assert dst[..i] == dst[..i - 1] + [res];
    }
    assert src[..i] == src;
    return Done(dst[..|src|]);
  }

  /**
   * `map`: the items replaced by what the script function gives for
   * each, in place when the buffer is held once and otherwise in a fresh
   * array of the same length; the first error is given back instead.
   */
  method Map(arr: DVal, call: seq<IVal> -> IVal, allocOk: bool) returns (r: DVal)
    requires ArrayOk(arr)
    modifies Frame(arr)
    ensures !arr.ArrayVal? ==> r == Simple(Err("First argument of map must be array"))
    ensures arr.ArrayVal? ==>
      var inPlace := arr.buf.refs == 1;
      var m := MapAll(old(Contents(arr)), One(call));
      && (!inPlace && !allocOk ==> r == Simple(Err("Out of memory")))
      && (inPlace || allocOk ==> (m.Raised? ==> r == Simple(m.err)) && (m.Done? ==> r.ArrayVal? && ArrayOk(r) && Contents(r) == m.items))
      && (inPlace && r.ArrayVal? ==> r.buf == arr.buf)
      && (!inPlace ==> arr.buf.items[..] == old(arr.buf.items[..]))
      && (!inPlace && r.ArrayVal? ==> fresh(r.buf) && r.buf.items.Length == arr.len)
  {
    if !arr.ArrayVal? {
      return Simple(Err("First argument of map must be array"));
    }
    var len := arr.len;
    if arr.buf.refs == 1 {
      var o := MapInPlace(arr.buf, len, One(call));
      if o.Raised? {
        return Simple(o.err);
      }
      return arr;
    }
    r := ManagedArray(None, len, len, allocOk);
    if r.Simple? {
      return Simple(Err("Out of memory"));
    }
    var o := MapInto(r.buf.items, arr.buf.items[..len], One(call));
    if o.Raised? {
      return Simple(o.err);
    }
  }

  /** The in-place pass of `filter_array`: kept items moved down to the front, stopping at the first bad answer. */
  method FilterInPlace(buf: ArrBuf, len: nat, f: IVal -> IVal) returns (o: Outcome, n: nat)
    requires len <= buf.items.Length
    modifies buf.items
    ensures o == FilterAll(old(buf.items[..len]), f)
    ensures o.Done? ==> n <= len && buf.items[..n] == o.items
    ensures buf.items[len..] == old(buf.items[len..])
  {
    ghost var whole := buf.items[..];
    ghost var orig := whole[..len];
    ghost var kept: seq<IVal> := [];
    var i := 0;
    n := 0;
    while i < len
      invariant 0 <= n <= i <= len && |kept| == n
      invariant FilterAll(orig[..i], f) == Done(kept)
      invariant buf.items[..n] == kept
      invariant buf.items[i..] == whole[i..]
    {
      var res;
      res, n, kept := FilterStep(buf.items, i, n, f, orig, whole, kept);
      if !res.IBool? {
        FilterRaisedSticks(orig, f, i + 1);
        TailFrom(buf.items[..], whole, i, len);
        return if res.IErr? then Raised(res) else Raised(Err(FILTER_MSG)), n;
      }
      i := i + 1;
    }
    assert orig[..i] == orig;
    return Done(buf.items[..n]), n;
  }

  /** One item of the in-place filter: ask about it, and move it down when the answer is true. */
  method FilterStep(a: array<IVal>, i: nat, n: nat, f: IVal -> IVal,
                    ghost orig: seq<IVal>, ghost whole: seq<IVal>, ghost kept: seq<IVal>)
    returns (res: IVal, n': nat, ghost kept': seq<IVal>)
    requires n <= i < |orig| <= a.Length == |whole| && orig == whole[..|orig|]
    requires FilterAll(orig[..i], f) == Done(kept) && |kept| == n
    requires a[..n] == kept && a[i..] == whole[i..]
    modifies a
    ensures res == f(orig[i])
    ensures !res.IBool? ==> FilterAll(orig[..i + 1], f).Raised? && a[i..] == whole[i..]
    ensures !res.IBool? ==> FilterAll(orig[..i + 1], f).err == if res.IErr? then res else Err(FILTER_MSG)
    ensures res.IBool? ==>
      && n' <= i + 1 && |kept'| == n'
      && FilterAll(orig[..i + 1], f) == Done(kept')
      && a[..n'] == kept' && a[i + 1..] == whole[i + 1..]
  {
    var x := a[i];
    TailStep(a[..], whole, i);
    FilterExtend(orig, i, f);
    res := f(x);
    n', kept' := n, kept;
    if res.IBool? && res.b {
      Keep(a, n, i, whole, kept);
      kept' := kept + [x];
      n' := n + 1;
    }
  }

  /** Sequences that agree from `i` on agree from any later `j` on. */
  lemma TailFrom(s: seq<IVal>, whole: seq<IVal>, i: nat, j: nat)
    requires i <= j <= |s| == |whole| && s[i..] == whole[i..]
    ensures s[j..] == whole[j..]
  {
    assert s[j..] == s[i..][j - i..];
    assert whole[j..] == whole[i..][j - i..];
  }

  /** Moves the item at `i` down to slot `n` (`a[n++] = a[i]`), leaving the slots after `i` alone. */
  method Keep(a: array<IVal>, n: nat, i: nat, ghost whole: seq<IVal>, ghost kept: seq<IVal>)
    requires n <= i < a.Length == |whole|
    requires a[..n] == kept && a[i..] == whole[i..]
    modifies a
    ensures a[..n + 1] == kept + [whole[i]]
    ensures a[i + 1..] == whole[i + 1..]
  {
    TailStep(a[..], whole, i);
    a[n] := a[i];
    assert a[..n + 1] == a[..n] + [a[n]];
  }

  /** Sequences that agree from `i` on agree at `i` and from `i + 1` on. */
  lemma TailStep(s: seq<IVal>, whole: seq<IVal>, i: nat)
    requires i < |s| == |whole| && s[i..] == whole[i..]
    ensures s[i] == whole[i] && s[i + 1..] == whole[i + 1..]
  {
    assert s[i] == s[i..][0];
    assert whole[i] == whole[i..][0];
    assert s[i + 1..] == s[i..][1..];
    assert whole[i + 1..] == whole[i..][1..];
  }

  /** The copying pass of `filter_array`: kept items appended to `dst`, stopping at the first bad answer. */
  method FilterInto(dst: array<IVal>, src: seq<IVal>, f: IVal -> IVal) returns (o: Outcome, n: nat)
    requires |src| <= dst.Length
    modifies dst
    ensures o == FilterAll(src, f)
    ensures o.Done? ==> n <= |src| && dst[..n] == o.items
  {
    var i := 0;
    n := 0;
    while i < |src|
      invariant 0 <= n <= i <= |src|
      invariant FilterAll(src[..i], f) == Done(dst[..n])
    {
      FilterExtend(src, i, f);
      var res := f(src[i]);
      if res.IErr? {
        FilterRaisedSticks(src, f, i + 1);
        return Raised(res), n;
      }
      if !res.IBool? {
        FilterRaisedSticks(src, f, i + 1);
        return Raised(Err(FILTER_MSG)), n;
      }
      if res.b {
        dst[n] := src[i];
        n := n + 1;
        assert dst[..n] == dst[..n - 1] + [src[i]];
      }
      i := i + 1;
    }
    assert src[..i] == src;
    return Done(dst[..n]), n;
  }

  /**
   * `filter`: the items for which the script function answers true, in
   * order, compacted in place when the buffer is held once and otherwise
   * copied into a fresh array with room for all items; an error answer is
   * given back and any other non-boolean one refused.
   */
  method Filter(arr: DVal, call: seq<IVal> -> IVal, allocOk: bool) returns (r: DVal)
    requires ArrayOk(arr)
    modifies Frame(arr)
    ensures !arr.ArrayVal? ==> r == Simple(Err("First argument of filter must be array"))
    ensures arr.ArrayVal? ==>
      var inPlace := arr.buf.refs == 1;
      var m := FilterAll(old(Contents(arr)), One(call));
      && (!inPlace && !allocOk ==> r == Simple(Err("Out of memory")))
      && (inPlace || allocOk ==> (m.Raised? ==> r == Simple(m.err)) && (m.Done? ==> r.ArrayVal? && ArrayOk(r) && Contents(r) == m.items))
      && (inPlace && r.ArrayVal? ==> r.buf == arr.buf)
      && (!inPlace ==> arr.buf.items[..] == old(arr.buf.items[..]))
      && (!inPlace && r.ArrayVal? ==> fresh(r.buf) && r.buf.items.Length == arr.len)
  {
    if !arr.ArrayVal? {
      return Simple(Err("First argument of filter must be array"));
    }
    var len := arr.len;
    if arr.buf.refs == 1 {
      var o, n := FilterInPlace(arr.buf, len, One(call));
      if o.Raised? {
        return Simple(o.err);
      }
      return ArrayVal(arr.buf, n);
    }
    var dst := ManagedArray(None, 0, len, allocOk);
    if dst.Simple? {
      return Simple(Err("Out of memory"));
    }
    var o, n := FilterInto(dst.buf.items, arr.buf.items[..len], One(call));
    if o.Raised? {
      return Simple(o.err);
    }
    return ArrayVal(dst.buf, n);
  }

  /** The arguments `arrayof` passes: the ints `0` to `n - 1`. */
  function Indices(n: nat): (xs: seq<IVal>)
    requires n < U32
    ensures |xs| == n && forall i :: 0 <= i < n ==> xs[i] == IInt(i)
  {
    seq(n, i requires 0 <= i < n => IInt(i))
  }

  /**
   * `arrayof`: an array of `n` items, item `i` being what the script
   * function gives for `i`; the first error is given back instead.
   */
  method ArrayOf(n: IVal, call: seq<IVal> -> IVal, allocOk: bool) returns (r: DVal)
    requires n.IInt? ==> n.i < U32
    ensures !n.IInt? ==> r == Simple(Err("First argument must be integer"))
    ensures n.IInt? && n.i < 0 ==> r == Simple(Err("Array size must be zero or greater"))
    ensures n.IInt? && n.i >= 0 ==>
      var m := MapAll(Indices(n.i), One(call));
      && (!allocOk ==> r == Simple(Err("Out of memory")))
      && (allocOk && m.Raised? ==> r == Simple(m.err))
      && (allocOk && m.Done? ==> r.ArrayVal? && fresh(r.buf) && ArrayOk(r) && Contents(r) == m.items)
  {
    if !n.IInt? {
      return Simple(Err("First argument must be integer"));
    }
    if n.i < 0 {
      return Simple(Err("Array size must be zero or greater"));
    }
    r := ManagedArray(None, n.i, n.i, allocOk);
    if r.Simple? {
      return Simple(Err("Out of memory"));
    }
    var o := MapInto(r.buf.items, Indices(n.i), One(call));
    if o.Raised? {
      return Simple(o.err);
    }
  }

  // ---------------------------------------------------------------- foreach-in, in?, union:

  /**
   * What `foreach-in` gives over a non-empty array: the result of the
   * call on the last item, or the first error.
   */
  function LastOrError(xs: seq<IVal>, f: IVal -> IVal): (r: IVal)
    requires |xs| > 0
    ensures (forall i :: 0 <= i < |xs| - 1 ==> !f(xs[i]).IErr?) ==> r == f(xs[|xs| - 1])
  {
    if |xs| == 1 then f(xs[0])
    else
      var init := xs[..|xs| - 1];
      assert forall i :: 0 <= i < |init| ==> init[i] == xs[i];
      var r := LastOrError(init, f);
      if r.IErr? then r else f(xs[|xs| - 1])
  }

  /** Iteration stops at the first item whose call errs. */
  lemma {:induction false} LastOrErrorFirst(xs: seq<IVal>, f: IVal -> IVal, k: nat)
    requires k < |xs| && f(xs[k]).IErr?
    requires forall i :: 0 <= i < k ==> !f(xs[i]).IErr?
    ensures LastOrError(xs, f) == f(xs[k])
  {
    if |xs| > 1 {
      var init := xs[..|xs| - 1];
      if k < |xs| - 1 {
        LastOrErrorFirst(init, f, k);
      } else {
        assert forall i :: 0 <= i < |init| ==> init[i] == xs[i];
      }
    }
  }

  /** An error on a prefix is the result on the whole sequence. */
  lemma {:induction false} LastOrErrorSticks(xs: seq<IVal>, f: IVal -> IVal, n: nat)
    requires 0 < n <= |xs| && LastOrError(xs[..n], f).IErr?
    ensures LastOrError(xs, f) == LastOrError(xs[..n], f)
    decreases |xs| - n
  {
    if n < |xs| {
      assert xs[..n + 1][..n] == xs[..n];
      LastOrErrorSticks(xs, f, n + 1);
    } else {
      assert xs[..n] == xs;
    }
  }

  /** The array loop of `foreach-in`. */
  method ForeachItems(xs: seq<IVal>, f: IVal -> IVal) returns (r: IVal)
    requires |xs| > 0
    ensures r == LastOrError(xs, f)
  {
    r := f(xs[0]);
    assert xs[..1] == [xs[0]];
    if r.IErr? {
      LastOrErrorSticks(xs, f, 1);
      return;
    }
    var i := 1;
    while i < |xs|
      invariant 1 <= i <= |xs|
      invariant r == LastOrError(xs[..i], f) && !r.IErr?
    {
      assert xs[..i + 1][..i] == xs[..i];
      r := f(xs[i]);
      if r.IErr? {
        LastOrErrorSticks(xs, f, i + 1);
        return;
      }
      i := i + 1;
    }
    assert xs[..i] == xs;
  }

  /**
   * `foreach-in`: calls the script function on each array item, or on
   * each key and value of a table; the result is the last call's, the
   * first error ending the iteration.  Over an empty array the source
   * returns an uninitialized value, `None` here.
   */
  method ForeachIn(coll: DVal, call: seq<IVal> -> IVal) returns (r: Option<IVal>)
    requires ArrayOk(coll)
    requires coll.TableVal? ==> coll.t.Valid()
    ensures coll.Simple? ==> r == Some(Err("Can only iterate over arrays and tables"))
    ensures coll.ArrayVal? ==> (r.None? <==> coll.len == 0)
    ensures coll.ArrayVal? && coll.len > 0 ==> r == Some(LastOrError(Contents(coll), One(call)))
    ensures coll.TableVal? ==>
      r == Some(DsTable.RunPairs(DsTable.Occupied(coll.t.entries[..]), Two(call), INull))
  {
    match coll
    case Simple(_) =>
      return Some(Err("Can only iterate over arrays and tables"));
    case ArrayVal(buf, len) =>
      if len == 0 {
        return None;
      }
      var res := ForeachItems(buf.items[..len], One(call));
      return Some(res);
    case TableVal(t) =>
      var res := DsTable.ForeachTable(t, Two(call));
      return Some(res);
  }

  /**
   * `in?`: whether an array holds an item equal (`i_val_eq`) to `x`, or
   * a table has the key `x`.
   */
  method In(x: IVal, coll: DVal) returns (r: IVal)
    requires coll.ArrayVal? || coll.TableVal?
    requires ArrayOk(coll)
    requires coll.TableVal? ==> coll.t.Valid()
    ensures coll.ArrayVal? ==> r == IBool(exists i :: 0 <= i < coll.len && IEq(x, Contents(coll)[i]))
    ensures coll.TableVal? ==> r == IBool(DsTable.Lookup(coll.t.entries[..], x).Some?)
  {
    if coll.ArrayVal? {
      var items := coll.buf.items[..coll.len];
      var i := 0;
      while i < coll.len
        invariant 0 <= i <= coll.len
        invariant forall j :: 0 <= j < i ==> !IEq(x, items[j])
      {
        if IEq(x, coll.buf.items[i]) {
          assert IEq(x, Contents(coll)[i]);
          return IBool(true);
        }
        i := i + 1;
      }
      return IBool(false);
    }
    var p := coll.t.IndexTable(x);
    return IBool(p.Some?);
  }

  /** For plain values `in?` on an array is membership. */
  lemma InIsMembership(x: IVal, xs: seq<IVal>)
    requires Plain(x)
    ensures (exists i :: 0 <= i < |xs| && IEq(x, xs[i])) <==> x in xs
  {
    forall i | 0 <= i < |xs|
      ensures IEq(x, xs[i]) <==> x == xs[i]
    {
      IEqIsEquality(x, xs[i]);
    }
  }

  /** `union:` with its argument checks: both arguments must be tables. */
  method UnionCallback(a: DVal, b: DVal, allocOk: bool) returns (r: DVal)
    requires a.TableVal? ==> a.t.Valid()
    requires b.TableVal? ==> b.t.Valid()
    ensures !a.TableVal? ==> r == Simple(Err("Expected first argument to be of type table"))
    ensures a.TableVal? && !b.TableVal? ==> r == Simple(Err("Expected second argument to be of type table"))
    ensures a.TableVal? && b.TableVal? && a.t.len + b.t.len > I_SIZE_MAX ==>
      r == Simple(Err("Resulting table would be too large"))
    ensures a.TableVal? && b.TableVal? && a.t.len + b.t.len <= I_SIZE_MAX ==>
      (r == Simple(Err("Out of memory")) <==> Wrap32((a.t.len + b.t.len) * 3) / 2 < a.t.len + b.t.len || !allocOk)
    ensures a.TableVal? && b.TableVal? ==>
      (r.TableVal? <==> a.t.len + b.t.len <= I_SIZE_MAX && Wrap32((a.t.len + b.t.len) * 3) / 2 >= a.t.len + b.t.len && allocOk)
    ensures a.TableVal? && b.TableVal? && r.TableVal? ==>
      && fresh(r.t) && r.t.Valid()
      && forall k :: DsTable.Lookup(r.t.entries[..], k)
           == DsTable.Prefer(DsTable.Lookup(a.t.entries[..], k), DsTable.Lookup(b.t.entries[..], k))
    ensures a.TableVal? && b.TableVal? && !r.TableVal? ==>
      r.Simple? && r.v in {Err("Resulting table would be too large"), Err("Out of memory")}
  {
    if !a.TableVal? {
      return Simple(Err("Expected first argument to be of type table"));
    }
    if !b.TableVal? {
      return Simple(Err("Expected second argument to be of type table"));
    }
    var made := DsTable.Union(a.t, b.t, allocOk);
    match made
    case MadeErr(e) => return Simple(e);
    case Made(t) => return TableVal(t);
  }
}
