/**
 * Memory bookkeeping of the newer runtime (src/beryl.c): the shared
 * temporary buffer behind `beryl_talloc` / `beryl_tfree` / `beryl_realloc`,
 * and the saturating reference counts behind `beryl_retain` /
 * `beryl_release` / `beryl_get_refcount`.
 *
 * The allocator callbacks are oracles: each call that would reach one takes
 * the block the callback hands out (or `None` when it fails) as a parameter.
 */
module BerylMem {
  import opened CTypes
  import opened BerylValues

  /** `TMP_ALLOC_BUFFER_SIZE` */
  const TMP_BUFFER_SIZE: nat := 512

  /** `I_REFC_MAX`: `i_refc` is an `unsigned short`. */
  const REFC_MAX: nat := 65535

  /** What an allocation returns: the shared buffer, a heap block, or `NULL`. */
  datatype Ptr = TmpBuffer | Heap(id: nat) | NullPtr

  /** The shared temporary buffer and the heap blocks handed out through it. */
  class TmpAllocator {
    var bufferFree: bool
    /** `tmp_alloc_buffer` */
    const buffer: array<byte>
    /** Blocks from the allocator callback, by identity, with their contents. */
    var heap: map<nat, seq<byte>>

    ghost predicate Valid()
      reads this
    {
      buffer.Length == TMP_BUFFER_SIZE
    }

    constructor ()
      ensures Valid() && bufferFree && heap == map[]
      ensures fresh(buffer)
    {
      bufferFree := true;
      buffer := new byte[TMP_BUFFER_SIZE](_ => 0);
      heap := map[];
    }

    /**
     * `beryl_talloc`: the shared buffer when the request fits strictly and the
     * buffer is free; otherwise the allocator callback's block (fresh blocks
     * are modelled zero-filled).
     */
    method Talloc(n: nat, block: Option<nat>) returns (p: Ptr)
      requires Valid()
      requires block.Some? ==> block.value !in heap
      modifies this
      ensures Valid()
      ensures p == TmpBuffer <==> n < TMP_BUFFER_SIZE && old(bufferFree)
      ensures p == TmpBuffer ==> !bufferFree && heap == old(heap)
      ensures p != TmpBuffer ==> bufferFree == old(bufferFree)
      ensures p != TmpBuffer && block.None? ==> p == NullPtr && heap == old(heap)
      ensures p != TmpBuffer && block.Some? ==>
        p == Heap(block.value) && heap == old(heap)[block.value := seq(n, _ => 0)]
    {
      if n < TMP_BUFFER_SIZE && bufferFree {
        bufferFree := false;
        return TmpBuffer;
      }
      if block.None? {
        return NullPtr;
      }
      heap := heap[block.value := seq(n, _ => 0)];
      return Heap(block.value);
    }

    /** `beryl_tfree`: returns the shared buffer (it must be in use), or frees a heap block. */
    method Tfree(p: Ptr)
      requires Valid()
      requires p == TmpBuffer ==> !bufferFree
      modifies this
      ensures Valid()
      ensures p == TmpBuffer ==> bufferFree && heap == old(heap)
      ensures p.Heap? ==> bufferFree == old(bufferFree) && heap == old(heap) - {p.id}
      ensures p == NullPtr ==> bufferFree == old(bufferFree) && heap == old(heap)
    {
      if p == TmpBuffer {
        bufferFree := true;
      } else if p.Heap? {
        heap := heap - {p.id};
      }
    }

    /**
     * `beryl_realloc`.  The shared buffer (which must be in use) stays put for
     * requests up to its size; a larger request moves its 512 bytes into a new
     * block and frees the buffer, or yields `NULL` and leaves everything as it
     * was.  Any other pointer goes to the realloc callback, whose answer is
     * `viaCallback`.
     */
    method Realloc(p: Ptr, n: nat, block: Option<nat>, viaCallback: Ptr) returns (r: Ptr)
      requires Valid()
      requires p == TmpBuffer ==> !bufferFree
      requires block.Some? ==> block.value !in heap
      modifies this
      ensures Valid() && unchanged(buffer)
      ensures p != TmpBuffer ==> r == viaCallback && bufferFree == old(bufferFree) && heap == old(heap)
      ensures p == TmpBuffer && n <= TMP_BUFFER_SIZE ==>
        r == TmpBuffer && !bufferFree && heap == old(heap)
      ensures p == TmpBuffer && n > TMP_BUFFER_SIZE && block.None? ==>
        r == NullPtr && !bufferFree && heap == old(heap)
      ensures p == TmpBuffer && n > TMP_BUFFER_SIZE && block.Some? ==>
        r == Heap(block.value) && bufferFree
        && heap.Keys == old(heap).Keys + {block.value}
        && (forall id :: id in old(heap) ==> heap[id] == old(heap)[id])
        && |heap[block.value]| == n
        && heap[block.value][..TMP_BUFFER_SIZE] == buffer[..]
    {
      if p != TmpBuffer {
        return viaCallback;
      }
      if n <= TMP_BUFFER_SIZE {
        return p;
      }
      if block.None? {
        return NullPtr;
      }
      var copy := new byte[n](_ => 0);
      var i := 0;
      while i < TMP_BUFFER_SIZE
        invariant 0 <= i <= TMP_BUFFER_SIZE
        invariant copy[..i] == buffer[..i]
        modifies copy
      {
        copy[i] := buffer[i];
        i := i + 1;
      }
      heap := heap[block.value := copy[..]];
      bufferFree := true;
      assert heap[block.value][..TMP_BUFFER_SIZE] == copy[..i];
      return Heap(block.value);
    }
  }

  // ---------------------------------------------------------------- reference counts

  /** What `beryl_release` needs to know about a value: its type, storage and object identity. */
  datatype Ref = Ref(kind: ValType, managed: bool, len: nat, id: nat)

  /**
   * A reference-counted object: its counter and the values it holds
   * (table keys and values in iteration order, or array items).
   */
  datatype Obj = Obj(count: nat, children: seq<Ref>)

  /**
   * `get_reference_counter`: tables and arrays have one when managed, strings
   * and errors when managed and longer than the inline limit, objects always.
   */
  function GetReferenceCounter(h: Ref): (r: Option<nat>)
    ensures r.Some? ==> r.value == h.id
    ensures r.Some? ==> h.kind in {TypeTable, TypeArray, TypeStr, TypeErr, TypeObject}
    ensures h.kind != TypeObject && !h.managed ==> r.None?
    ensures h.kind in {TypeStr, TypeErr} && h.len <= INLINE_STR_MAX_LEN ==> r.None?
  {
    match h.kind
    case TypeTable => if h.managed then Some(h.id) else None
    case TypeArray => if h.managed then Some(h.id) else None
    case TypeStr => if h.managed && h.len > INLINE_STR_MAX_LEN then Some(h.id) else None
    case TypeErr => if h.managed && h.len > INLINE_STR_MAX_LEN then Some(h.id) else None
    case TypeObject => Some(h.id)
    case _ => None
  }

  /** Every live object's counter is in `[1, I_REFC_MAX]`. */
  ghost predicate CountsValid(m: map<nat, Obj>)
  {
    forall id :: id in m ==> 1 <= m[id].count <= REFC_MAX
  }

  /** `m1` came from `m0` by dropping objects and lowering counters. */
  ghost predicate Shrunk(m0: map<nat, Obj>, m1: map<nat, Obj>)
  {
    m1.Keys <= m0.Keys
    && forall id :: id in m1 ==> m1[id].children == m0[id].children && m1[id].count <= m0[id].count
  }

  lemma ShrunkTrans(m0: map<nat, Obj>, m1: map<nat, Obj>, m2: map<nat, Obj>)
    requires Shrunk(m0, m1) && Shrunk(m1, m2)
    ensures Shrunk(m0, m2)
  {
  }

  /** The heap after `beryl_retain(h)`: one more reference, saturating at `I_REFC_MAX`. */
  function Retained(m: map<nat, Obj>, h: Ref): map<nat, Obj>
  {
    var c := GetReferenceCounter(h);
    if c.None? || c.value !in m || m[c.value].count == REFC_MAX then m
    else m[c.value := m[c.value].(count := m[c.value].count + 1)]
  }

  /** The heap after a `beryl_release(h)` that does not reach zero. */
  function Decremented(m: map<nat, Obj>, id: nat): map<nat, Obj>
    requires id in m && m[id].count >= 1
  {
    m[id := m[id].(count := m[id].count - 1)]
  }

  /** Retaining keeps the counters within bounds. */
  lemma RetainedValid(m: map<nat, Obj>, h: Ref)
    requires CountsValid(m)
    ensures CountsValid(Retained(m, h))
    ensures Retained(m, h).Keys == m.Keys
  {
  }

  /** A counter at `I_REFC_MAX` is stuck: retain leaves it there. */
  lemma RetainSaturates(m: map<nat, Obj>, h: Ref)
    requires GetReferenceCounter(h).Some? && h.id in m && m[h.id].count == REFC_MAX
    ensures Retained(m, h) == m
  {
  }

  /** Below the maximum, a release undoes a retain. */
  lemma RetainThenRelease(m: map<nat, Obj>, h: Ref)
    requires GetReferenceCounter(h).Some? && h.id in m && m[h.id].count < REFC_MAX
    ensures h.id in Retained(m, h)
    ensures Decremented(Retained(m, h), h.id) == m
  {
    var r := Retained(m, h);
    assert r[h.id].count == m[h.id].count + 1;
    assert Decremented(r, h.id)[h.id] == m[h.id];
  }

  /** The heap after `beryl_retain_values(items)`: each item retained once, in order. */
  function RetainedAll(m: map<nat, Obj>, items: seq<Ref>): map<nat, Obj>
    decreases |items|
  {
    if items == [] then m else RetainedAll(Retained(m, items[0]), items[1..])
  }

  /** How many of `items` carry the counter of object `id`. */
  function Holders(items: seq<Ref>, id: nat): nat
  {
    if items == [] then 0
    else (if GetReferenceCounter(items[0]) == Some(id) then 1 else 0) + Holders(items[1..], id)
  }

  /**
   * After `beryl_retain_values`, every live object's counter has grown by the
   * number of items that refer to it, saturating at `I_REFC_MAX`; no object
   * appears or disappears and none changes what it holds.
   */
  lemma {:induction false} RetainedAllCounts(m: map<nat, Obj>, items: seq<Ref>, id: nat)
    requires CountsValid(m) && id in m
    ensures RetainedAll(m, items).Keys == m.Keys
    ensures RetainedAll(m, items)[id].children == m[id].children
    ensures RetainedAll(m, items)[id].count == Min(m[id].count + Holders(items, id), REFC_MAX)
    decreases |items|
  {
    if items != [] {
      var m1 := Retained(m, items[0]);
      RetainedValid(m, items[0]);
      RetainedAllCounts(m1, items[1..], id);
    }
  }

  /**
   * The heap after `beryl_release(h)`, or `None` where the release reaches an
   * object that is already freed.  Without a counter, or with one stuck at
   * `I_REFC_MAX`, nothing changes; above one the counter drops; at one the
   * object is freed and, for a table or an array, the values it holds are
   * released in turn.
   */
  ghost function Released(m: map<nat, Obj>, h: Ref): (r: Option<map<nat, Obj>>)
    ensures r.Some? ==> r.value.Keys <= m.Keys
    decreases |m.Keys|, 0, 0
  {
    if GetReferenceCounter(h).None? then Some(m)
    else if h.id !in m then None
    else if m[h.id].count == REFC_MAX then Some(m)
    else if m[h.id].count > 1 then Some(Decremented(m, h.id))
    else
      var rest := m - {h.id};
      assert rest.Keys < m.Keys;
      SubsetCard(rest.Keys, m.Keys);
      ReleasedAll(rest, if h.kind in {TypeTable, TypeArray} then m[h.id].children else [])
  }

  /** The heap after releasing each of `items` in order, or `None` once a release fails. */
  ghost function ReleasedAll(m: map<nat, Obj>, items: seq<Ref>): (r: Option<map<nat, Obj>>)
    ensures r.Some? ==> r.value.Keys <= m.Keys
    decreases |m.Keys|, 1, |items|
  {
    if items == [] then Some(m)
    else
      match Released(m, items[0])
      case None => None
      case Some(m1) =>
        SubsetLeCard(m1.Keys, m.Keys);
        ReleasedAll(m1, items[1..])
  }

  /**
   * While the counter stays below `I_REFC_MAX`, `beryl_release` undoes
   * `beryl_retain`; a retain that reaches the maximum sticks.
   */
  lemma RetainThenReleased(m: map<nat, Obj>, h: Ref)
    requires CountsValid(m)
    requires GetReferenceCounter(h).Some? && h.id in m && m[h.id].count < REFC_MAX
    ensures m[h.id].count < REFC_MAX - 1 ==> Released(Retained(m, h), h) == Some(m)
    ensures m[h.id].count == REFC_MAX - 1 ==> Released(Retained(m, h), h) == Some(Retained(m, h))
  {
    RetainThenRelease(m, h);
    var r := Retained(m, h);
    assert r[h.id].count == m[h.id].count + 1;
  }

  /** Releasing values without counters changes nothing. */
  lemma {:induction false} ReleasedAllCounterless(m: map<nat, Obj>, items: seq<Ref>)
    requires forall i :: 0 <= i < |items| ==> GetReferenceCounter(items[i]).None?
    ensures ReleasedAll(m, items) == Some(m)
    decreases |items|
  {
    if items != [] {
      ReleasedAllCounterless(m, items[1..]);
    }
  }

  /** The identities of `items`. */
  function Ids(items: seq<Ref>): set<nat>
  {
    if items == [] then {} else {items[0].id} + Ids(items[1..])
  }

  /**
   * Releasing the last reference to each of several distinct objects that
   * hold nothing frees exactly those objects.
   */
  lemma {:induction false} ReleasedAllLast(m: map<nat, Obj>, items: seq<Ref>)
    requires forall i :: 0 <= i < |items| ==>
      GetReferenceCounter(items[i]).Some? && items[i].id in m
      && m[items[i].id].count == 1 && m[items[i].id].children == []
    requires forall i, j :: 0 <= i < j < |items| ==> items[i].id != items[j].id
    ensures ReleasedAll(m, items) == Some(m - Ids(items))
    decreases |items|
  {
    if items != [] {
      var h := items[0];
      var m1 := m - {h.id};
      assert Released(m, h) == ReleasedAll(m1, []);
      assert forall i :: 1 <= i < |items| ==> items[i].id != h.id;
      ReleasedAllLast(m1, items[1..]);
      assert m1 - Ids(items[1..]) == m - Ids(items);
    } else {
      assert m - {} == m;
    }
  }

  /** The reference-counted objects reachable from values, keyed by identity. */
  class RefHeap {
    var objs: map<nat, Obj>

    ghost predicate Valid()
      reads this
    {
      CountsValid(objs)
    }

    constructor ()
      ensures Valid() && objs == map[]
    {
      objs := map[];
    }

    /** `beryl_get_refcount`: the counter, or `I_REFC_MAX` for a value without one. */
    function GetRefcount(h: Ref): (r: nat)
      reads this
      requires Valid()
      requires GetReferenceCounter(h).Some? ==> h.id in objs
      ensures r <= REFC_MAX
      ensures GetReferenceCounter(h).None? ==> r == REFC_MAX
      ensures GetReferenceCounter(h).Some? ==> r == objs[h.id].count && r >= 1
    {
      var c := GetReferenceCounter(h);
      if c.None? then REFC_MAX else objs[c.value].count
    }

    /** `beryl_retain` */
    method Retain(h: Ref)
      requires Valid()
      requires GetReferenceCounter(h).Some? ==> h.id in objs
      modifies this
      ensures Valid()
      ensures objs == Retained(old(objs), h)
    {
      RetainedValid(objs, h);
      var c := GetReferenceCounter(h);
      if c.None? {
        return;
      }
      if objs[c.value].count != REFC_MAX {
        objs := objs[c.value := objs[c.value].(count := objs[c.value].count + 1)];
      }
    }

    /** `beryl_retain_values` */
    method RetainValues(items: seq<Ref>)
      requires Valid()
      requires forall i :: 0 <= i < |items| ==> GetReferenceCounter(items[i]).Some? ==> items[i].id in objs
      modifies this
      ensures Valid()
      ensures objs == RetainedAll(old(objs), items)
    {
      var i := 0;
      while i < |items|
        invariant 0 <= i <= |items|
        invariant Valid()
        invariant objs.Keys == old(objs).Keys
        invariant RetainedAll(objs, items[i..]) == RetainedAll(old(objs), items)
      {
        assert items[i..][0] == items[i] && items[i..][1..] == items[i + 1..];
        RetainedValid(objs, items[i]);
        Retain(items[i]);
        i := i + 1;
      }
    }

    /**
     * `beryl_release`.  Values without a counter, and counters stuck at
     * `I_REFC_MAX`, are left alone.  Otherwise the counter drops by one; at
     * zero the object is freed and, for tables and arrays, every value it
     * holds is released in turn.  `ok` is false when the release reaches an
     * object that is already freed: where the source's `assert` on a zero
     * counter (or a use after free) would stop the program.
     */
    method Release(h: Ref) returns (ok: bool)
      requires Valid()
      modifies this
      ensures Valid()
      ensures Shrunk(old(objs), objs)
      ensures ok <==> Released(old(objs), h).Some?
      ensures ok ==> objs == Released(old(objs), h).value
      decreases |objs.Keys|, 0
    {
      var c := GetReferenceCounter(h);
      if c.None? {
        return true;
      }
      if h.id !in objs {
        return false;
      }
      var o := objs[h.id];
      if o.count == REFC_MAX {
        return true;
      }
      if o.count > 1 {
        objs := Decremented(objs, h.id);
        return true;
      }
      // The counter reaches zero: the value is freed.
      ghost var before := objs;
      objs := objs - {h.id};
      assert objs.Keys < before.Keys;
      SubsetCard(objs.Keys, before.Keys);
      var children := if h.kind in {TypeTable, TypeArray} then o.children else [];
      assert Released(before, h) == ReleasedAll(objs, children);
      ok := ReleaseValues(children);
    }

    /** `beryl_release_values`: releases each value in order, stopping at a failed release. */
    method ReleaseValues(items: seq<Ref>) returns (ok: bool)
      requires Valid()
      modifies this
      ensures Valid()
      ensures Shrunk(old(objs), objs)
      ensures ok <==> ReleasedAll(old(objs), items).Some?
      ensures ok ==> objs == ReleasedAll(old(objs), items).value
      decreases |objs.Keys|, 1
    {
      var i := 0;
      while i < |items|
        invariant 0 <= i <= |items|
        invariant Valid()
        invariant Shrunk(old(objs), objs)
        invariant ReleasedAll(objs, items[i..]) == ReleasedAll(old(objs), items)
      {
        assert items[i..][0] == items[i] && items[i..][1..] == items[i + 1..];
        SubsetLeCard(objs.Keys, old(objs).Keys);
        ghost var prev := objs;
        var itemOk := Release(items[i]);
        ShrunkTrans(old(objs), prev, objs);
        if !itemOk {
          assert ReleasedAll(prev, items[i..]) == None;
          return false;
        }
        assert ReleasedAll(prev, items[i..]) == ReleasedAll(objs, items[i + 1..]);
        i := i + 1;
      }
      return true;
    }
  }

  lemma SubsetCard<T>(a: set<T>, b: set<T>)
    requires a < b
    ensures |a| < |b|
  {
    var x :| x in b && x !in a;
    assert a <= b - {x};
    SubsetLeCard(a, b - {x});
  }

  lemma {:induction false} SubsetLeCard<T>(a: set<T>, b: set<T>)
    requires a <= b
    ensures |a| <= |b|
    decreases b
  {
    if a != {} {
      var x :| x in a;
      SubsetLeCard(a - {x}, b - {x});
    }
  }
}
