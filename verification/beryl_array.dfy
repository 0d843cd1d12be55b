/**
 * Growable arrays of the newer runtime (src/beryl.c): `beryl_new_array`
 * and `beryl_array_push`.  Capacities are `i_size` (`unsigned int`), so the
 * growth formula `cap*3/2 + 1` is computed modulo 2^32 and its overflow is
 * detected by comparing with the old capacity.
 */
module BerylArray {
  import opened CTypes
  import opened BerylValues

  /** `cap*3/2 + 1` in `unsigned int` arithmetic. */
  function Grown(cap: nat): (r: nat)
    ensures r < U32
  {
    Wrap32(Wrap32(cap * 3) / 2 + 1)
  }

  /** Without wrap-around, growing always makes room for at least one more item. */
  lemma GrownLarger(cap: nat)
    requires cap * 3 < U32
    ensures Grown(cap) > cap
  {
    assert Wrap32(cap * 3) == cap * 3;
  }

  /** A managed array: `items` is the allocation, its first `len` slots the contents. */
  class BArray {
    var items: array<Val>
    var len: nat

    ghost predicate Valid()
      reads this
    {
      len <= items.Length < U32
    }

    function Contents(): seq<Val>
      reads this, items
      requires Valid()
    {
      items[..len]
    }

    constructor Filled(cap: nat, contents: seq<Val>)
      requires |contents| <= cap < U32
      ensures Valid() && items.Length == cap && Contents() == contents && fresh(items)
    {
      var a := new Val[cap](_ => VNull);
      var i := 0;
      while i < |contents|
        invariant 0 <= i <= |contents|
        invariant a[..i] == contents[..i]
        modifies a
      {
        a[i] := contents[i];
        i := i + 1;
      }
      items := a;
      len := |contents|;
      new;
      assert items[..len] == contents[..i];
    }

    /**
     * `beryl_array_push`: a full array first moves to a new allocation of
     * `cap*3/2 + 1` slots, failing when that wraps to no more than `cap` or
     * the allocation fails; then `val` is stored at index `len`.
     */
    method Push(val: Val, allocOk: bool) returns (ok: bool)
      requires Valid()
      modifies this, items
      ensures Valid()
      ensures !ok <==> old(len) == old(items.Length) && (Grown(old(items.Length)) <= old(items.Length) || !allocOk)
      ensures ok ==> Contents() == old(Contents()) + [val]
      ensures !ok ==> Contents() == old(Contents()) && items == old(items)
      ensures ok && old(len) == old(items.Length) ==> items.Length == Grown(old(items.Length)) && fresh(items)
      ensures ok && old(len) < old(items.Length) ==> items == old(items)
    {
      if items.Length == len {
        var newCap := Grown(items.Length);
        if newCap <= items.Length {
          return false;
        }
        if !allocOk {
          return false;
        }
        var grown := new Val[newCap](_ => VNull);
        var i := 0;
        while i < len
          invariant 0 <= i <= len
          invariant grown[..i] == items[..i]
          modifies grown
        {
          grown[i] := items[i];
          i := i + 1;
        }
        assert grown[..len] == old(items[..len]);
        items := grown;
      }
      items[len] := val;
      len := len + 1;
      assert items[..len] == old(items[..len]) + [val] by {
        assert items[..len - 1] == old(Contents());
      }
      return true;
    }
  }

  /** The capacity `beryl_new_array` asks for. */
  function NewArrayCap(fitFor: nat, padded: bool): nat
  {
    if padded then Grown(fitFor) else fitFor
  }

  /**
   * `beryl_new_array`: capacity `fit_for`, or `fit_for*3/2 + 1` when padded
   * (null when that wraps to no more than `fit_for`); null when the
   * allocation fails.  The first `len` items are copied from `items`, or
   * null when no items are given.
   */
  method NewArray(len: nat, items: Option<seq<Val>>, fitFor: nat, padded: bool, allocOk: bool)
    returns (a: BArray?)
    requires len <= fitFor < U32
    requires items.Some? ==> len <= |items.value|
    ensures a == null <==> (padded && Grown(fitFor) <= fitFor) || !allocOk
    ensures a != null ==> fresh(a) && a.Valid() && a.items.Length == NewArrayCap(fitFor, padded)
    ensures a != null && items.Some? ==> a.Contents() == items.value[..len]
    ensures a != null && items.None? ==> a.Contents() == seq(len, _ => VNull)
  {
    var cap := NewArrayCap(fitFor, padded);
    if padded && cap <= fitFor {
      return null;
    }
    if !allocOk {
      return null;
    }
    var contents := if items.Some? then items.value[..len] else seq(len, _ => VNull);
    a := new BArray.Filled(cap, contents);
  }
}
