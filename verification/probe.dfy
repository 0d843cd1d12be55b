/**
 * Linear probing with wrap-around, as used by the value tables of both
 * runtimes (`table_get` / `search_table` in src/beryl.c, `find_in_table` in
 * src/libs/datastructures_lib.c) and by the globals lookup table
 * (`index_globals` in src/beryl.c).
 *
 * A lookup starts at the key's home slot, walks to the end of the slot
 * array, then continues from slot 0 up to the home slot, and stops at the
 * first slot that is empty or holds the key.  No slot is ever emptied
 * again, so every stored key is reachable from its home slot over occupied
 * slots only; that invariant (`Chained`) is what makes lookup find what
 * insertion stored.
 */
module Probe {
  import opened CTypes

  /** The slot visited `k` steps after `start`, wrapping at `n`. */
  function Pos(start: nat, k: nat, n: nat): (p: nat)
    requires start < n && k < n
    ensures p < n
  {
    if start + k < n then start + k else start + k - n
  }

  /** How many steps after `start` the walk reaches slot `j`. */
  function Dist(start: nat, j: nat, n: nat): (d: nat)
    requires start < n && j < n
    ensures d < n
    ensures Pos(start, d, n) == j
  {
    if j >= start then j - start else j + n - start
  }

  lemma DistPos(start: nat, k: nat, n: nat)
    requires start < n && k < n
    ensures Dist(start, Pos(start, k, n), n) == k
  {
  }

  /** The first stopping slot at least `k` steps from `start`. */
  function FirstStop(stops: seq<bool>, start: nat, k: nat): Option<nat>
    requires start < |stops| && k <= |stops|
    decreases |stops| - k
  {
    if k == |stops| then None
    else if stops[Pos(start, k, |stops|)] then Some(Pos(start, k, |stops|))
    else FirstStop(stops, start, k + 1)
  }

  /** A found slot stops the walk and every slot visited before it does not; no slot stops when nothing is found. */
  lemma {:induction false} FirstStopSpec(stops: seq<bool>, start: nat, k0: nat)
    requires start < |stops| && k0 <= |stops|
    ensures var r := FirstStop(stops, start, k0);
      && (r.Some? ==>
            r.value < |stops| && stops[r.value] && k0 <= Dist(start, r.value, |stops|)
            && forall k :: k0 <= k < Dist(start, r.value, |stops|) ==> !stops[Pos(start, k, |stops|)])
      && (r.None? ==> forall k :: k0 <= k < |stops| ==> !stops[Pos(start, k, |stops|)])
    decreases |stops| - k0
  {
    if k0 < |stops| {
      var p := Pos(start, k0, |stops|);
      DistPos(start, k0, |stops|);
      if !stops[p] {
        FirstStopSpec(stops, start, k0 + 1);
        var r := FirstStop(stops, start, k0 + 1);
        if r.Some? {
          assert Dist(start, r.value, |stops|) != k0;
        }
      }
    }
  }

  /** Conversely, the first stopping slot on the walk is the one found. */
  lemma {:induction false} FirstStopAt(stops: seq<bool>, start: nat, k: nat, d: nat)
    requires start < |stops| && k <= d < |stops|
    requires stops[Pos(start, d, |stops|)]
    requires forall k' :: k <= k' < d ==> !stops[Pos(start, k', |stops|)]
    ensures FirstStop(stops, start, k) == Some(Pos(start, d, |stops|))
    decreases d - k
  {
    if k < d {
      FirstStopAt(stops, start, k + 1, d);
    }
  }

  /**
   * The walk as two scans, `[start, n)` and then `[0, start)`: it ends
   * where the first scan stops, or else where the second one does.
   */
  lemma TwoScans(stops: seq<bool>, start: nat, r1: Option<nat>, r2: Option<nat>)
    requires start < |stops|
    requires r1.Some? ==> start <= r1.value < |stops| && stops[r1.value]
    requires r1.Some? ==> forall i :: start <= i < r1.value ==> !stops[i]
    requires r1.None? ==> forall i :: start <= i < |stops| ==> !stops[i]
    requires r1.None? && r2.Some? ==> r2.value < start && stops[r2.value]
    requires r1.None? && r2.Some? ==> forall i :: 0 <= i < r2.value ==> !stops[i]
    requires r1.None? && r2.None? ==> forall i :: 0 <= i < start ==> !stops[i]
    ensures FirstStop(stops, start, 0) == if r1.Some? then r1 else r2
  {
    var n := |stops|;
    if r1.Some? {
      forall k | 0 <= k < r1.value - start
        ensures !stops[Pos(start, k, n)]
      {
      }
      FirstStopAt(stops, start, 0, r1.value - start);
    } else {
      FirstStopSpec(stops, start, 0);
      if r2.Some? {
        forall k | 0 <= k < r2.value + n - start
          ensures !stops[Pos(start, k, n)]
        {
        }
        FirstStopAt(stops, start, 0, r2.value + n - start);
      }
    }
  }

  /** The walk visits every slot, so it stops whenever some slot would stop it. */
  lemma FirstStopTotal(stops: seq<bool>, start: nat, i: nat)
    requires start < |stops| && i < |stops| && stops[i]
    ensures FirstStop(stops, start, 0).Some?
  {
    FirstStopSpec(stops, start, 0);
    var d := Dist(start, i, |stops|);
    assert stops[Pos(start, d, |stops|)];
  }

  // ---------------------------------------------------------------- keyed slots

  /** Where the walk for `key` stops: an empty slot, or one holding `key`. */
  function Stops<K(==)>(keys: seq<Option<K>>, key: K): (r: seq<bool>)
    ensures |r| == |keys|
    ensures forall i :: 0 <= i < |keys| ==> r[i] == (keys[i].None? || keys[i] == Some(key))
  {
    seq(|keys|, i requires 0 <= i < |keys| => keys[i].None? || keys[i] == Some(key))
  }

  /** The slot a lookup of `key` from home slot `home` ends at. */
  function Find<K(==)>(keys: seq<Option<K>>, key: K, home: nat): (r: Option<nat>)
    requires home < |keys|
    ensures r.Some? ==> r.value < |keys| && (keys[r.value].None? || keys[r.value] == Some(key))
  {
    FirstStopSpec(Stops(keys, key), home, 0);
    FirstStop(Stops(keys, key), home, 0)
  }

  /** Each key is stored at most once. */
  ghost predicate Unique<K>(keys: seq<Option<K>>)
  {
    forall i, j :: 0 <= i < |keys| && 0 <= j < |keys| && keys[i].Some? && keys[i] == keys[j] ==> i == j
  }

  /** Every home slot is inside the slot array. */
  ghost predicate HomesIn<K(!new)>(n: nat, home: K -> nat)
  {
    forall k :: home(k) < n
  }

  /** Each stored key is reachable from its home slot over occupied slots only. */
  ghost predicate Chained<K(!new)>(keys: seq<Option<K>>, home: K -> nat)
  {
    HomesIn(|keys|, home)
    && forall j, k :: 0 <= j < |keys| && keys[j].Some? && 0 <= k < Dist(home(keys[j].value), j, |keys|) ==>
      keys[Pos(home(keys[j].value), k, |keys|)].Some?
  }

  /** A lookup finds the slot that holds the key. */
  lemma FindPresent<K(!new)>(keys: seq<Option<K>>, home: K -> nat, j: nat)
    requires Chained(keys, home) && Unique(keys)
    requires j < |keys| && keys[j].Some?
    ensures Find(keys, keys[j].value, home(keys[j].value)) == Some(j)
  {
    var key := keys[j].value;
    var h := home(key);
    var stops := Stops(keys, key);
    var d := Dist(h, j, |keys|);
    forall k' | 0 <= k' < d
      ensures !stops[Pos(h, k', |keys|)]
    {
      var p := Pos(h, k', |keys|);
      DistPos(h, k', |keys|);
      assert keys[p].Some?;
      assert p != j;
    }
    FirstStopAt(stops, h, 0, d);
  }

  /** A lookup that ends at an empty slot means the key is stored nowhere. */
  lemma FindAbsent<K(!new)>(keys: seq<Option<K>>, home: K -> nat, key: K)
    requires Chained(keys, home) && Unique(keys)
    requires var r := Find(keys, key, home(key)); r.Some? && keys[r.value].None?
    ensures forall j :: 0 <= j < |keys| ==> keys[j] != Some(key)
  {
    forall j | 0 <= j < |keys|
      ensures keys[j] != Some(key)
    {
      if keys[j] == Some(key) {
        FindPresent(keys, home, j);
      }
    }
  }

  /** With an empty slot somewhere, every lookup ends at a slot. */
  lemma FindTotal<K>(keys: seq<Option<K>>, key: K, home: nat, i: nat)
    requires home < |keys| && i < |keys| && keys[i].None?
    ensures Find(keys, key, home).Some?
  {
    FirstStopTotal(Stops(keys, key), home, i);
  }

  /** Storing a new key where its lookup ended keeps the slots chained and unique. */
  lemma InsertChained<K(!new)>(keys: seq<Option<K>>, home: K -> nat, key: K)
    requires Chained(keys, home) && Unique(keys)
    requires var r := Find(keys, key, home(key)); r.Some? && keys[r.value].None?
    ensures var p := Find(keys, key, home(key)).value;
      Chained(keys[p := Some(key)], home) && Unique(keys[p := Some(key)])
  {
    var h := home(key);
    var p := Find(keys, key, h).value;
    var keys' := keys[p := Some(key)];
    FindAbsent(keys, home, key);
    FirstStopSpec(Stops(keys, key), h, 0);
    forall j, k | 0 <= j < |keys'| && keys'[j].Some? && 0 <= k < Dist(home(keys'[j].value), j, |keys'|)
      ensures keys'[Pos(home(keys'[j].value), k, |keys'|)].Some?
    {
      if j == p {
        DistPos(h, k, |keys|);
        assert !Stops(keys, key)[Pos(h, k, |keys|)];
      }
    }
  }

  /** The number of occupied slots. */
  function Count<K>(keys: seq<Option<K>>): (c: nat)
    ensures c <= |keys|
  {
    if keys == [] then 0 else Count(keys[..|keys| - 1]) + (if keys[|keys| - 1].Some? then 1 else 0)
  }

  /** Filling an empty slot adds one to the count. */
  lemma {:induction false} CountFill<K>(keys: seq<Option<K>>, p: nat, key: K)
    requires p < |keys| && keys[p].None?
    ensures Count(keys[p := Some(key)]) == Count(keys) + 1
  {
    var n := |keys|;
    var keys' := keys[p := Some(key)];
    if p < n - 1 {
      assert keys'[..n - 1] == keys[..n - 1][p := Some(key)];
      CountFill(keys[..n - 1], p, key);
    } else {
      assert keys'[..n - 1] == keys[..n - 1];
    }
  }

  /** When fewer slots are occupied than exist, one of them is empty. */
  lemma {:induction false} CountBelowFindsEmpty<K>(keys: seq<Option<K>>) returns (i: nat)
    requires Count(keys) < |keys|
    ensures i < |keys| && keys[i].None?
  {
    var n := |keys|;
    if keys[n - 1].None? {
      return n - 1;
    }
    i := CountBelowFindsEmpty(keys[..n - 1]);
  }

  /** All slots empty: nothing occupied. */
  lemma {:induction false} CountEmpty<K>(n: nat)
    ensures Count(seq<Option<K>>(n, _ => None)) == 0
  {
    if n > 0 {
      assert seq<Option<K>>(n, _ => None)[..n - 1] == seq<Option<K>>(n - 1, _ => None);
      CountEmpty<K>(n - 1);
    }
  }

  /** Without stored keys there is nothing to chain or duplicate. */
  lemma EmptyChained<K(!new)>(n: nat, home: K -> nat)
    requires HomesIn(n, home)
    ensures Chained(seq<Option<K>>(n, _ => None), home) && Unique(seq<Option<K>>(n, _ => None))
  {
  }
}
