/**
 * The hash tables of the data-structures library of the older runtime
 * (src/libs/datastructures_lib.c): `is_hashable`, `hash_i_val`,
 * `find_in_table`, `index_table`, `table_insert`, `create_empty_table`,
 * `table_foreach`, the table constructor, `union:` and calling a table.
 *
 * A table is an array of key/value slots (`entries`, its length the
 * capacity) and the number of occupied slots; an empty slot has a null
 * key.  Keys are ints, bools and strings.  Iteration with a callback is
 * modelled by the sequence of slots the callback is given.
 */
module DsTable {
  import opened CTypes
  import opened IValues
  import opened Probe

  datatype Pair = Pair(key: IVal, val: IVal)

  /** `is_hashable`. */
  predicate Hashable(v: IVal): (r: bool)
    ensures r <==> v.TypeOf() in {TInt, TBool, TStr}
  {
    v.IInt? || v.IBool? || v.IStr?
  }

  /** A slot's key: null (empty) or hashable. */
  predicate KeyOk(key: IVal)
  {
    key == INull || Hashable(key)
  }

  /** The string hash `h = h*7 + c` over the bytes as `unsigned char`s, in `unsigned int` arithmetic. */
  function StrHash(s: Bytes): (h: nat)
    ensures h < U32
  {
    if s == [] then 0 else Wrap32(StrHash(s[..|s| - 1]) * 7 + s[|s| - 1])
  }

  /**
   * `hash_i_val`: bools as 0 or 1, a non-negative int truncated to
   * `unsigned int`, a negative int as `I_SIZE_MAX` minus its truncated
   * negation, a string by `StrHash`.
   */
  function Hash(key: IVal): (h: nat)
    requires Hashable(key)
    ensures h < U32
  {
    match key
    case IBool(b) => if b then 1 else 0
    case IInt(i) => if i >= 0 then Wrap32(i) else I_SIZE_MAX - Wrap32(WrapI64(0 - i))
    case IStr(s) => StrHash(s)
  }

  /** Ints in the range of `unsigned int` hash to themselves; small negative ints count down from `I_SIZE_MAX`. */
  lemma HashInts(i: i64)
    ensures 0 <= i < U32 ==> Hash(IInt(i)) == i
    ensures -U32 < i < 0 ==> Hash(IInt(i)) == I_SIZE_MAX + i
    ensures Hash(IBool(false)) == 0 && Hash(IBool(true)) == 1
  {
  }

  /** `hash_i_val`, with its loop over the string's bytes. */
  method HashIVal(key: IVal) returns (h: nat)
    requires Hashable(key)
    ensures h == Hash(key)
  {
    match key
    case IBool(b) => return if b then 1 else 0;
    case IInt(i) =>
      if i >= 0 {
        return Wrap32(i);
      }
      return I_SIZE_MAX - Wrap32(WrapI64(0 - i));
    case IStr(s) =>
      h := HashBytes(s);
  }

  /** The byte loop of `hash_i_val`: multiply by 7 and add the byte, in `unsigned int`. */
  method HashBytes(s: Bytes) returns (h: nat)
    ensures h == StrHash(s)
  {
    h := 0;
    var i := 0;
    while i < |s|
      invariant 0 <= i <= |s|
      invariant h == StrHash(s[..i])
    {
      h := Wrap32(h * 7);
      h := Wrap32(h + s[i]);
      HashStep(s, i);
      i := i + 1;
    }
    assert s[..i] == s;
  }

  /** One byte more: the two truncations in the loop give the hash of the longer prefix. */
  lemma HashStep(s: Bytes, i: nat)
    requires i < |s|
    ensures Wrap32(Wrap32(StrHash(s[..i]) * 7) + s[i]) == StrHash(s[..i + 1])
  {
    var p := s[..i + 1];
    assert p[..|p| - 1] == s[..i];
    var x := StrHash(s[..i]) * 7;
    assert Wrap32(Wrap32(x) + s[i]) == Wrap32(x + s[i]);
  }

  /** The home slot of each key in a table of capacity `n`. */
  function Home(n: nat): IVal -> nat
    requires n > 0
  {
    k => if Hashable(k) then Hash(k) % n else 0
  }

  /** The slots' keys, empty slots as `None`. */
  function Keys(s: seq<Pair>): (keys: seq<Option<IVal>>)
    ensures |keys| == |s|
    ensures forall i :: 0 <= i < |s| ==> keys[i] == (if s[i].key == INull then None else Some(s[i].key))
  {
    seq(|s|, i requires 0 <= i < |s| => if s[i].key == INull then None else Some(s[i].key))
  }

  /** Every key hashable, none stored twice, each reachable from its home slot. */
  ghost predicate WellFormed(s: seq<Pair>)
  {
    (forall i :: 0 <= i < |s| ==> KeyOk(s[i].key))
    && Unique(Keys(s))
    && (|s| > 0 ==> Chained(Keys(s), Home(|s|)))
  }

  /** The slot `find_in_table` returns for `key`. */
  function SlotFor(s: seq<Pair>, key: IVal): (r: Option<nat>)
    requires Hashable(key)
    ensures r.Some? ==> r.value < |s| && (s[r.value].key == INull || s[r.value].key == key)
  {
    if |s| == 0 then None else Find(Keys(s), key, Hash(key) % |s|)
  }

  /** What the table maps `key` to (`index_table`), if anything. */
  function Lookup(s: seq<Pair>, key: IVal): Option<IVal>
  {
    if !Hashable(key) then None
    else
      var r := SlotFor(s, key);
      if r.Some? && s[r.value].key != INull then Some(s[r.value].val) else None
  }

  /** A stored key maps to the value beside it. */
  lemma LookupAt(s: seq<Pair>, j: nat)
    requires WellFormed(s) && j < |s| && s[j].key != INull
    ensures Lookup(s, s[j].key) == Some(s[j].val)
  {
    FindPresent(Keys(s), Home(|s|), j);
  }

  /** A key stored nowhere maps to nothing. */
  lemma LookupAbsent(s: seq<Pair>, key: IVal)
    requires forall j :: 0 <= j < |s| ==> s[j].key != key
    ensures Lookup(s, key) == None
  {
  }

  /** A key maps to something exactly when some slot holds it. */
  lemma LookupSome(s: seq<Pair>, key: IVal)
    requires WellFormed(s)
    ensures Lookup(s, key).Some? <==> key != INull && exists j :: 0 <= j < |s| && s[j].key == key
  {
    if key == INull {
    } else if j :| 0 <= j < |s| && s[j].key == key {
      LookupAt(s, j);
    } else {
      LookupAbsent(s, key);
    }
  }

  /** Slot `p` not holding `k` (before or after), other slots equal: `k` maps to the same thing. */
  lemma LookupOther(s: seq<Pair>, s': seq<Pair>, p: nat, k: IVal)
    requires WellFormed(s) && WellFormed(s') && |s| == |s'| && p < |s|
    requires forall j :: 0 <= j < |s| && j != p ==> s'[j] == s[j]
    requires s[p].key != k && s'[p].key != k && k != INull
    ensures Lookup(s', k) == Lookup(s, k)
  {
    if j :| 0 <= j < |s| && s[j].key == k {
      LookupAt(s, j);
      LookupAt(s', j);
    } else {
      LookupAbsent(s, k);
      LookupAbsent(s', k);
    }
  }

  /** Where the lookup of `key` ends at an empty slot, the key is nowhere in the table. */
  lemma LookupEndsEmpty(s: seq<Pair>, key: IVal, p: nat)
    requires WellFormed(s) && Hashable(key) && |s| > 0
    requires SlotFor(s, key) == Some(p) && s[p].key == INull
    ensures forall j :: 0 <= j < |s| ==> s[j].key != key
  {
    FindAbsent(Keys(s), Home(|s|), key);
    forall j | 0 <= j < |s|
      ensures s[j].key != key
    {
      assert Keys(s)[j] != Some(key);
    }
  }

  /** With every slot occupied and the key absent, the lookup walks off the end. */
  lemma LookupFull(s: seq<Pair>, key: IVal)
    requires WellFormed(s) && Hashable(key)
    requires Count(Keys(s)) == |s| && Lookup(s, key).None?
    ensures SlotFor(s, key).None?
  {
    if |s| > 0 {
      CountFull(Keys(s));
      LookupSome(s, key);
      var stops := Stops(Keys(s), key);
      FirstStopSpec(stops, Hash(key) % |s|, 0);
    }
  }

  /** A count equal to the length means every slot is occupied. */
  lemma {:induction false} CountFull<K>(keys: seq<Option<K>>)
    requires Count(keys) == |keys|
    ensures forall i :: 0 <= i < |keys| ==> keys[i].Some?
  {
    if keys != [] {
      var n := |keys|;
      assert Count(keys[..n - 1]) <= n - 1;
      CountFull(keys[..n - 1]);
      forall i | 0 <= i < n
        ensures keys[i].Some?
      {
        if i < n - 1 {
          assert keys[..n - 1][i] == keys[i];
        }
      }
    }
  }

  // ---------------------------------------------------------------- iteration order

  /** The occupied slots in index order: what `table_foreach` visits. */
  function Occupied(s: seq<Pair>): seq<Pair>
  {
    if s == [] then []
    else Occupied(s[..|s| - 1]) + (if s[|s| - 1].key != INull then [s[|s| - 1]] else [])
  }

  /** As many slots are visited as are counted. */
  lemma {:induction false} OccupiedCount(s: seq<Pair>)
    ensures |Occupied(s)| == Count(Keys(s))
  {
    if s != [] {
      assert Keys(s)[..|s| - 1] == Keys(s[..|s| - 1]);
      OccupiedCount(s[..|s| - 1]);
    }
  }

  /** The slots visited within a prefix of the table come first. */
  lemma {:induction false} OccupiedPrefix(s: seq<Pair>, p: nat)
    requires p <= |s|
    ensures |Occupied(s[..p])| <= |Occupied(s)|
    ensures Occupied(s[..p]) == Occupied(s)[..|Occupied(s[..p])|]
    decreases |s|
  {
    if p < |s| {
      var t := s[..|s| - 1];
      assert s[..p] == t[..p];
      OccupiedPrefix(t, p);
    } else {
      assert s[..p] == s;
    }
  }

  /** The loop of `table_foreach` over the slots `s` of a table holding `len` pairs. */
  method VisitSlots(s: seq<Pair>, len: nat, stop: (Pair, bool) -> bool) returns (visited: seq<Pair>, stopped: bool)
    requires len == |Occupied(s)|
    ensures |visited| <= len && visited == Occupied(s)[..|visited|]
    ensures forall m :: 0 <= m < |visited| - 1 ==> !stop(visited[m], m == len - 1)
    ensures stopped <==> |visited| > 0 && stop(visited[|visited| - 1], |visited| - 1 == len - 1)
    ensures !stopped ==> visited == Occupied(s)
  {
    var left := len;
    visited := [];
    var p := 0;
    while p < |s|
      invariant 0 <= p <= |s|
      invariant visited == Occupied(s[..p]) && left == len - |visited|
      invariant forall m :: 0 <= m < |visited| ==> !stop(visited[m], m == len - 1)
    {
      VisitNext(s, p);
      var pair := s[p];
      if pair.key != INull {
        var isLast := left == 1;
        visited := visited + [pair];
        if stop(pair, isLast) {
          return visited, true;
        }
        left := left - 1;
        if left == 0 {
          return visited, false;
        }
      }
      p := p + 1;
    }
    assert s[..p] == s;
    return visited, false;
  }

  /** One slot more: an occupied slot adds its pair to the visits, and those still come first. */
  lemma VisitNext(s: seq<Pair>, p: nat)
    requires p < |s|
    ensures Occupied(s[..p + 1]) == Occupied(s[..p]) + (if s[p].key != INull then [s[p]] else [])
    ensures |Occupied(s[..p + 1])| <= |Occupied(s)|
    ensures Occupied(s[..p + 1]) == Occupied(s)[..|Occupied(s[..p + 1])|]
  {
    assert s[..p + 1][..p] == s[..p];
    OccupiedPrefix(s, p + 1);
  }

  /** The value of the first pair whose key is `k`. */
  function FirstIn(ps: seq<Pair>, k: IVal): Option<IVal>
  {
    if ps == [] then None
    else if ps[0].key == k then Some(ps[0].val)
    else FirstIn(ps[1..], k)
  }

  /** `a` if it holds something, else `b`. */
  function Prefer<T>(a: Option<T>, b: Option<T>): Option<T>
  {
    if a.Some? then a else b
  }

  lemma {:induction false} FirstInAppend(x: seq<Pair>, y: seq<Pair>, k: IVal)
    ensures FirstIn(x + y, k) == Prefer(FirstIn(x, k), FirstIn(y, k))
  {
    if x != [] {
      assert (x + y)[0] == x[0];
      assert (x + y)[1..] == x[1..] + y;
      FirstInAppend(x[1..], y, k);
    } else {
      assert x + y == y;
    }
  }

  lemma {:induction false} FirstInOccupiedNone(s: seq<Pair>, k: IVal)
    requires forall i :: 0 <= i < |s| ==> s[i].key != k
    ensures FirstIn(Occupied(s), k) == None
  {
    if s != [] {
      var t := s[..|s| - 1];
      FirstInOccupiedNone(t, k);
      FirstInAppend(Occupied(t), if s[|s| - 1].key != INull then [s[|s| - 1]] else [], k);
    }
  }

  lemma {:induction false} FirstInOccupiedAt(s: seq<Pair>, k: IVal, j: nat)
    requires j < |s| && s[j].key == k != INull
    requires forall i :: 0 <= i < |s| && i != j ==> s[i].key != k
    ensures FirstIn(Occupied(s), k) == Some(s[j].val)
  {
    var t := s[..|s| - 1];
    var last := if s[|s| - 1].key != INull then [s[|s| - 1]] else [];
    FirstInAppend(Occupied(t), last, k);
    if j == |s| - 1 {
      FirstInOccupiedNone(t, k);
    } else {
      FirstInOccupiedAt(t, k, j);
    }
  }

  /** Visiting the slots in order and taking the first pair with a key is looking the key up. */
  lemma FirstInOccupied(s: seq<Pair>, k: IVal)
    requires WellFormed(s) && Hashable(k)
    ensures FirstIn(Occupied(s), k) == Lookup(s, k)
  {
    if j :| 0 <= j < |s| && s[j].key == k {
      FirstInOccupiedAt(s, k, j);
      LookupAt(s, j);
    } else {
      FirstInOccupiedNone(s, k);
      LookupAbsent(s, k);
    }
  }

  // ---------------------------------------------------------------- the table

  /** `struct i_table`: `entries` holds `cap` slots, `len` of them occupied. */
  class Table {
    const entries: array<Pair>
    var len: nat

    ghost predicate Valid()
      reads this, entries
    {
      entries.Length < U32
      && len == Count(Keys(entries[..]))
      && WellFormed(entries[..])
    }

    /** A table of `cap` empty slots. */
    constructor Empty(cap: nat)
      requires cap < U32
      ensures Valid() && len == 0 && entries.Length == cap && fresh(entries)
      ensures forall k :: Lookup(entries[..], k) == None
    {
      entries := new Pair[cap](_ => Pair(INull, INull));
      len := 0;
      new;
      assert Keys(entries[..]) == seq<Option<IVal>>(cap, _ => None);
      CountEmpty<IVal>(cap);
      if cap > 0 {
        EmptyChained(cap, Home(cap));
      }
    }

    /** One of the two loops of `find_in_table`: the first slot in `[from, until)` that is empty or holds `key`. */
    method SearchRange(key: IVal, from: nat, until: nat) returns (r: Option<nat>)
      requires Valid() && Hashable(key)
      requires until <= entries.Length
      ensures r.Some? ==> from <= r.value < until && Stops(Keys(entries[..]), key)[r.value]
      ensures r.Some? ==> forall i :: from <= i < r.value ==> !Stops(Keys(entries[..]), key)[i]
      ensures r.None? ==> forall i :: from <= i < until ==> !Stops(Keys(entries[..]), key)[i]
    {
      var i := from;
      while i < until
        invariant from <= i || until <= from
        invariant forall j :: from <= j < i && j < until ==> !Stops(Keys(entries[..]), key)[j]
      {
        if entries[i].key == INull {
          return Some(i);
        }
        IEqIsEquality(entries[i].key, key);
        if IEq(entries[i].key, key) {
          return Some(i);
        }
        i := i + 1;
      }
      return None;
    }

    /**
     * `find_in_table`: nothing for a table without slots; otherwise probe
     * from the home slot to the end, then from slot 0 up to the home slot.
     */
    method FindInTable(key: IVal) returns (r: Option<nat>)
      requires Valid() && Hashable(key)
      ensures r == SlotFor(entries[..], key)
    {
      var n := entries.Length;
      if n == 0 {
        return None;
      }
      var hash := HashIVal(key);
      var index := hash % n;
      var first := SearchRange(key, index, n);
      var second := None;
      if first.None? {
        second := SearchRange(key, 0, index);
      }
      TwoScans(Stops(Keys(entries[..]), key), index, first, second);
      return if first.Some? then first else second;
    }

    /** `index_table`: the value stored under `key`; nothing for an unhashable or absent key. */
    method IndexTable(key: IVal) returns (v: Option<IVal>)
      requires Valid()
      ensures v == Lookup(entries[..], key)
      ensures v.Some? <==> key != INull && exists j :: 0 <= j < entries.Length && entries[j].key == key
    {
      LookupSome(entries[..], key);
      if !Hashable(key) {
        return None;
      }
      var entry := FindInTable(key);
      if entry.None? {
        return None;
      }
      if entries[entry.value].key == INull {
        return None;
      }
      return Some(entries[entry.value].val);
    }

    /**
     * `table_insert`: 2 when `find_in_table` finds no slot (the table is
     * full and the key absent), 1 when the key is already present (the old
     * value stays), and otherwise 0 after storing the pair in the empty
     * slot found.
     */
    method TableInsert(key: IVal, val: IVal) returns (code: int)
      requires Valid() && Hashable(key)
      modifies this, entries
      ensures Valid()
      ensures code == 1 <==> old(Lookup(entries[..], key)).Some?
      ensures code == 2 <==> old(Lookup(entries[..], key)).None? && old(len) == entries.Length
      ensures code == 0 <==> old(Lookup(entries[..], key)).None? && old(len) < entries.Length
      ensures code != 0 ==> entries[..] == old(entries[..]) && len == old(len)
      ensures code == 0 ==> len == old(len) + 1 && Lookup(entries[..], key) == Some(val)
      ensures code == 0 ==> forall k :: k != key ==> Lookup(entries[..], k) == old(Lookup(entries[..], k))
    {
      ghost var s := entries[..];
      var n := entries.Length;
      var kv := FindInTable(key);
      if kv.None? {
        if len < n {
          var empty := CountBelowFindsEmpty(Keys(s));
          FindTotal(Keys(s), key, Hash(key) % n, empty);
        }
        return 2;
      }
      var p := kv.value;
      if entries[p].key != INull {
        LookupAt(s, p);
        return 1;
      }
      LookupEndsEmpty(s, key, p);
      LookupAbsent(s, key);
      if len == n {
        LookupFull(s, key);
      }
      StoreNew(p, key, val);
      return 0;
    }

    /** Stores a key that is absent in the empty slot its lookup ends at. */
    method StoreNew(p: nat, key: IVal, val: IVal)
      requires Valid() && Hashable(key)
      requires SlotFor(entries[..], key) == Some(p) && entries[p].key == INull
      requires Lookup(entries[..], key).None?
      modifies this, entries
      ensures Valid() && len == old(len) + 1
      ensures Lookup(entries[..], key) == Some(val)
      ensures forall k :: k != key ==> Lookup(entries[..], k) == old(Lookup(entries[..], k))
    {
      ghost var s := entries[..];
      var n := entries.Length;
      LookupEndsEmpty(s, key, p);
      assert Keys(s)[p] == None;
      InsertChained(Keys(s), Home(n), key);
      CountFill(Keys(s), p, key);
      entries[p] := Pair(key, val);
      len := len + 1;
      assert Keys(entries[..]) == Keys(s)[p := Some(key)];
      LookupAt(entries[..], p);
      forall k | k != key
        ensures Lookup(entries[..], k) == Lookup(s, k)
      {
        if k == INull {
          assert Lookup(entries[..], k) == None && Lookup(s, k) == None;
        } else {
          LookupOther(s, entries[..], p, k);
        }
      }
    }

    /**
     * `table_foreach`: visits the occupied slots in index order, telling
     * the callback `stop` whether this is the `len`-th (last) visit, and
     * ends early when it answers true; it also ends once `len` slots have
     * been visited.  Returns the pairs visited and whether `stop` ended it.
     */
    method TableForeach(stop: (Pair, bool) -> bool) returns (visited: seq<Pair>, stopped: bool)
      requires Valid()
      ensures |visited| <= |Occupied(entries[..])| && visited == Occupied(entries[..])[..|visited|]
      ensures forall m :: 0 <= m < |visited| - 1 ==> !stop(visited[m], m == len - 1)
      ensures stopped <==> |visited| > 0 && stop(visited[|visited| - 1], |visited| - 1 == len - 1)
      ensures !stopped ==> visited == Occupied(entries[..])
    {
      OccupiedCount(entries[..]);
      visited, stopped := VisitSlots(entries[..], len, stop);
    }

    /** `table_call`: a table called with one key gives the value stored under it. */
    method TableCall(args: seq<IVal>) returns (r: IVal)
      requires Valid()
      ensures |args| != 1 ==> r == Err("Table can only be indexed with 1 key")
      ensures |args| == 1 ==>
        r == match Lookup(entries[..], args[0]) case Some(v) => v case None => Err("Index out of bounds")
    {
      if |args| != 1 {
        return Err("Table can only be indexed with 1 key");
      }
      var res := IndexTable(args[0]);
      if res.None? {
        return Err("Index out of bounds");
      }
      return res.value;
    }

    /**
     * Inserts `pairs` in order, as `union:` and the table constructor do;
     * with room for all of them no insert finds the table full, so a key
     * already present, or seen earlier, keeps its first value.
     */
    method InsertEach(pairs: seq<Pair>)
      requires Valid() && len + |pairs| <= entries.Length
      requires forall i :: 0 <= i < |pairs| ==> Hashable(pairs[i].key)
      modifies this, entries
      ensures Valid()
      ensures forall k :: Lookup(entries[..], k) == Prefer(old(Lookup(entries[..], k)), FirstIn(pairs, k))
    {
      ghost var s0 := entries[..];
      ghost var len0 := len;
      var i := 0;
      while i < |pairs|
        invariant 0 <= i <= |pairs| && Valid() && len <= len0 + i
        invariant forall k :: Lookup(entries[..], k) == Prefer(Lookup(s0, k), FirstIn(pairs[..i], k))
      {
        ghost var before := entries[..];
        var code := TableInsert(pairs[i].key, pairs[i].val);
        assert code != 2;
        InsertEachStep(s0, before, entries[..], pairs, i);
        i := i + 1;
      }
      assert pairs[..i] == pairs;
    }

    /**
     * The insertion loop of `table`: the pairs go in one by one until a
     * key turns out to be present already.  On success the table holds
     * exactly the pairs.
     */
    method InsertDistinct(ps: seq<Pair>) returns (ok: bool)
      requires Valid() && len == 0 && |ps| <= entries.Length
      requires forall k :: Lookup(entries[..], k).None?
      requires forall i :: 0 <= i < |ps| ==> Hashable(ps[i].key)
      modifies this, entries
      ensures Valid()
      ensures ok <==> DistinctKeys(ps)
      ensures ok ==> len == |ps| && forall k :: Lookup(entries[..], k) == FirstIn(ps, k)
    {
      var i := 0;
      while i < |ps|
        invariant 0 <= i <= |ps| && Valid() && len == i
        invariant DistinctKeys(ps[..i])
        invariant forall k :: Lookup(entries[..], k) == FirstIn(ps[..i], k)
      {
        var key := ps[i].key;
        var res := TableInsert(key, ps[i].val);
        if res == 1 {
          assert FirstIn(ps[..i], key).Some?;
          FirstInHas(ps[..i], key);
          ghost var j :| 0 <= j < i && ps[..i][j].key == key;
          assert ps[j].key == ps[i].key;
          return false;
        }
        assert res == 0;
        assert ps[..i + 1] == ps[..i] + [ps[i]];
        forall k
          ensures Lookup(entries[..], k) == FirstIn(ps[..i + 1], k)
        {
          FirstInAppend(ps[..i], [ps[i]], k);
          assert [ps[i]][1..] == [];
        }
        FirstInMissing(ps[..i], key);
        i := i + 1;
      }
      assert ps[..i] == ps;
      return true;
    }
  }

  /**
   * The two `table_foreach` passes of `union:`: every pair of `a`, then
   * every pair of `b`, inserted into the empty table `t`.
   */
  method InsertTables(t: Table, a: Table, b: Table)
    requires t.Valid() && a.Valid() && b.Valid() && t.len == 0
    requires forall k :: Lookup(t.entries[..], k) == None
    requires a.len + b.len <= t.entries.Length
    requires t.entries != a.entries && t.entries != b.entries
    modifies t, t.entries
    ensures t.Valid()
    ensures forall k :: Lookup(t.entries[..], k) == Prefer(Lookup(a.entries[..], k), Lookup(b.entries[..], k))
  {
    ghost var sa, sb := a.entries[..], b.entries[..];
    var pa, _ := a.TableForeach((p: Pair, last: bool) => false);
    var pb, _ := b.TableForeach((p: Pair, last: bool) => false);
    UnionPairs(sa, sb);
    t.InsertEach(pa + pb);
    assert a.entries[..] == sa && b.entries[..] == sb;
  }

  /**
   * `create_empty_table(fit_for)`: `fit_for*3/2` slots in `unsigned int`
   * arithmetic, all empty; null when that wraps below `fit_for` or the
   * allocation fails.
   */
  method CreateEmptyTable(fitFor: nat, allocOk: bool) returns (t: Table?)
    requires fitFor < U32
    ensures t == null <==> Wrap32(fitFor * 3) / 2 < fitFor || !allocOk
    ensures t != null ==> fresh(t) && fresh(t.entries) && t.Valid() && t.len == 0
    ensures t != null ==> t.entries.Length == Wrap32(fitFor * 3) / 2 >= fitFor
    ensures t != null ==> forall k :: Lookup(t.entries[..], k) == None
  {
    var cap := Wrap32(fitFor * 3) / 2;
    if cap < fitFor {
      return null;
    }
    if !allocOk {
      return null;
    }
    t := new Table.Empty(cap);
  }

  /** Without wrap-around the capacity is at least the requested number of entries. */
  lemma CapacityFits(fitFor: nat)
    requires fitFor * 3 < U32
    ensures Wrap32(fitFor * 3) / 2 >= fitFor
  {
  }

  // ---------------------------------------------------------------- constructor and union

  /** What the table constructor and `union:` give: an error, or a new table. */
  datatype Made = MadeErr(err: IVal) | Made(table: Table)

  /** The argument list read as key/value pairs. */
  function AsPairs(args: seq<IVal>): (ps: seq<Pair>)
    requires |args| % 2 == 0
    ensures |ps| == |args| / 2
    ensures forall i :: 0 <= i < |ps| ==> ps[i] == Pair(args[2 * i], args[2 * i + 1])
  {
    seq(|args| / 2, i requires 0 <= i < |args| / 2 => Pair(args[2 * i], args[2 * i + 1]))
  }

  /** No key occurs twice among the pairs. */
  predicate DistinctKeys(ps: seq<Pair>)
  {
    forall i, j :: 0 <= i < j < |ps| ==> ps[i].key != ps[j].key
  }

  /**
   * `table`: an even number of arguments read as key/value pairs, inserted
   * in order into a table sized for them; a key that is already present
   * is refused.  Every key must be hashable (`find_in_table` asserts it).
   */
  method TableConstruct(args: seq<IVal>, allocOk: bool) returns (r: Made)
    requires |args| % 2 == 0 ==> forall i :: 0 <= i < |args| / 2 ==> Hashable(args[2 * i])
    ensures |args| % 2 != 0 ==> r == MadeErr(Err("Table constructor arguments must be even in number"))
    ensures |args| % 2 == 0 && |args| > I_SIZE_MAX ==> r == MadeErr(Err("Too many arguments"))
    ensures |args| % 2 == 0 && |args| <= I_SIZE_MAX ==>
      var fits := allocOk && Wrap32(|args| / 2 * 3) / 2 >= |args| / 2;
      && (r == MadeErr(Err("Out of memory")) <==> !fits)
      && (r == MadeErr(Err("Duplicate key")) <==> fits && !DistinctKeys(AsPairs(args)))
      && (r.Made? <==> fits && DistinctKeys(AsPairs(args)))
    ensures r.Made? ==> fresh(r.table) && r.table.Valid() && r.table.len == |args| / 2
    ensures r.Made? ==> forall k :: Lookup(r.table.entries[..], k) == FirstIn(AsPairs(args), k)
  {
    if |args| % 2 != 0 {
      return MadeErr(Err("Table constructor arguments must be even in number"));
    }
    if |args| > I_SIZE_MAX {
      return MadeErr(Err("Too many arguments"));
    }
    var n := |args| / 2;
    var t := CreateEmptyTable(n, allocOk);
    if t == null {
      assert Err("Duplicate key").msg[0] != Err("Out of memory").msg[0];
      return MadeErr(Err("Out of memory"));
    }
    var ok := t.InsertDistinct(AsPairs(args));
    if !ok {
      assert Err("Duplicate key").msg[0] != Err("Out of memory").msg[0];
      return MadeErr(Err("Duplicate key"));
    }
    return Made(t);
  }

  /** A first value exists exactly when some pair has the key. */
  lemma {:induction false} FirstInHas(ps: seq<Pair>, k: IVal)
    ensures FirstIn(ps, k).Some? <==> exists j :: 0 <= j < |ps| && ps[j].key == k
  {
    if ps != [] {
      FirstInHas(ps[1..], k);
      if exists j :: 0 <= j < |ps| && ps[j].key == k {
        var j :| 0 <= j < |ps| && ps[j].key == k;
        if j > 0 {
          assert ps[1..][j - 1].key == k;
        }
      }
      if exists j :: 0 <= j < |ps[1..]| && ps[1..][j].key == k {
        var j :| 0 <= j < |ps[1..]| && ps[1..][j].key == k;
        assert ps[j + 1].key == k;
      }
    }
  }

  /** Adding a pair whose key is new keeps the keys distinct. */
  lemma FirstInMissing(ps: seq<Pair>, k: IVal)
    requires DistinctKeys(ps) && FirstIn(ps, k).None?
    ensures forall p :: DistinctKeys(ps + [Pair(k, p)])
  {
    FirstInHas(ps, k);
  }

  /** One more pair inserted: the table now prefers what it held, then the first value among one more pair. */
  lemma InsertEachStep(s0: seq<Pair>, before: seq<Pair>, after: seq<Pair>, pairs: seq<Pair>, i: nat)
    requires i < |pairs|
    requires forall k :: Lookup(before, k) == Prefer(Lookup(s0, k), FirstIn(pairs[..i], k))
    requires Lookup(before, pairs[i].key).Some? ==> after == before
    requires Lookup(before, pairs[i].key).None? ==> Lookup(after, pairs[i].key) == Some(pairs[i].val)
    requires Lookup(before, pairs[i].key).None? ==> forall k :: k != pairs[i].key ==> Lookup(after, k) == Lookup(before, k)
    ensures forall k :: Lookup(after, k) == Prefer(Lookup(s0, k), FirstIn(pairs[..i + 1], k))
  {
    assert pairs[..i + 1] == pairs[..i] + [pairs[i]];
    forall k
      ensures Lookup(after, k) == Prefer(Lookup(s0, k), FirstIn(pairs[..i + 1], k))
    {
      FirstInAppend(pairs[..i], [pairs[i]], k);
      assert [pairs[i]][1..] == [];
    }
  }

  /**
   * `union:`: a table sized for both, filled with the first table's pairs
   * and then the second's; on a shared key the first table's value wins.
   */
  method Union(a: Table, b: Table, allocOk: bool) returns (r: Made)
    requires a.Valid() && b.Valid()
    ensures a.len + b.len > I_SIZE_MAX ==> r == MadeErr(Err("Resulting table would be too large"))
    ensures a.len + b.len <= I_SIZE_MAX ==>
      (r == MadeErr(Err("Out of memory")) <==> Wrap32((a.len + b.len) * 3) / 2 < a.len + b.len || !allocOk)
    ensures r.MadeErr? ==> r.err in {Err("Resulting table would be too large"), Err("Out of memory")}
    ensures r.Made? <==> a.len + b.len <= I_SIZE_MAX && Wrap32((a.len + b.len) * 3) / 2 >= a.len + b.len && allocOk
    ensures r.Made? ==> fresh(r.table) && r.table.Valid()
    ensures r.Made? ==> forall k ::
      Lookup(r.table.entries[..], k) == Prefer(Lookup(a.entries[..], k), Lookup(b.entries[..], k))
  {
    if b.len > I_SIZE_MAX - a.len {
      return MadeErr(Err("Resulting table would be too large"));
    }
    var t := UnionTable(a, b, allocOk);
    if t == null {
      return MadeErr(Err("Out of memory"));
    }
    return Made(t);
  }

  /** The table `union:` builds once the sizes fit: null when it cannot be allocated. */
  method UnionTable(a: Table, b: Table, allocOk: bool) returns (t: Table?)
    requires a.Valid() && b.Valid() && a.len + b.len <= I_SIZE_MAX
    ensures t == null <==> Wrap32((a.len + b.len) * 3) / 2 < a.len + b.len || !allocOk
    ensures t != null ==> fresh(t) && t.Valid()
    ensures t != null ==> forall k ::
      Lookup(t.entries[..], k) == Prefer(Lookup(a.entries[..], k), Lookup(b.entries[..], k))
  {
    var maxEntries := a.len + b.len;
    t := CreateEmptyTable(maxEntries, allocOk);
    if t != null {
      InsertTables(t, a, b);
    }
  }

  /** The pairs of two tables, one after the other, give the first table's value for a shared key. */
  lemma UnionPairs(sa: seq<Pair>, sb: seq<Pair>)
    requires WellFormed(sa) && WellFormed(sb)
    ensures |Occupied(sa) + Occupied(sb)| == Count(Keys(sa)) + Count(Keys(sb))
    ensures forall i :: 0 <= i < |Occupied(sa) + Occupied(sb)| ==> Hashable((Occupied(sa) + Occupied(sb))[i].key)
    ensures forall k :: FirstIn(Occupied(sa) + Occupied(sb), k) == Prefer(Lookup(sa, k), Lookup(sb, k))
  {
    var pa, pb := Occupied(sa), Occupied(sb);
    OccupiedCount(sa);
    OccupiedCount(sb);
    OccupiedKeys(sa);
    OccupiedKeys(sb);
    forall k
      ensures FirstIn(pa + pb, k) == Prefer(Lookup(sa, k), Lookup(sb, k))
    {
      FirstInAppend(pa, pb, k);
      if Hashable(k) {
        FirstInOccupied(sa, k);
        FirstInOccupied(sb, k);
      } else {
        FirstInUnhashable(pa + pb, k);
      }
    }
  }

  /** The pairs visited carry hashable keys. */
  lemma {:induction false} OccupiedKeys(s: seq<Pair>)
    requires forall i :: 0 <= i < |s| ==> KeyOk(s[i].key)
    ensures forall i :: 0 <= i < |Occupied(s)| ==> Hashable(Occupied(s)[i].key)
  {
    if s != [] {
      OccupiedKeys(s[..|s| - 1]);
    }
  }

  /** Pairs with hashable keys give nothing for an unhashable one. */
  lemma {:induction false} FirstInUnhashable(ps: seq<Pair>, k: IVal)
    requires !Hashable(k) && forall i :: 0 <= i < |ps| ==> Hashable(ps[i].key)
    ensures FirstIn(ps, k) == None
  {
    if ps != [] {
      FirstInUnhashable(ps[1..], k);
    }
  }

  /**
   * `foreach-in` over a table: the callback gets each visited pair's key
   * and value; the result is the last callback result, null when the
   * table is empty, and iteration ends at the first error.
   */
  function RunPairs(ps: seq<Pair>, call: (IVal, IVal) -> IVal, res: IVal): IVal
  {
    if ps == [] then res
    else
      var r := call(ps[0].key, ps[0].val);
      if r.IErr? then r else RunPairs(ps[1..], call, r)
  }

  /** `foreach-in` over a table, through `table_foreach` with a callback that ends it at an error. */
  method ForeachTable(t: Table, call: (IVal, IVal) -> IVal) returns (r: IVal)
    requires t.Valid()
    ensures r == RunPairs(Occupied(t.entries[..]), call, INull)
  {
    var visited, stopped := t.TableForeach((p: Pair, last: bool) => call(p.key, p.val).IErr?);
    if |visited| == 0 {
      return INull;
    }
    r := call(visited[|visited| - 1].key, visited[|visited| - 1].val);
    RunPrefix(Occupied(t.entries[..]), visited, call, INull);
  }

  /** Running over a visited prefix whose earlier calls succeeded ends with the last call's result when that one erred or was last. */
  lemma {:induction false} RunPrefix(ps: seq<Pair>, visited: seq<Pair>, call: (IVal, IVal) -> IVal, res: IVal)
    requires 0 < |visited| <= |ps| && visited == ps[..|visited|]
    requires forall m :: 0 <= m < |visited| - 1 ==> !call(visited[m].key, visited[m].val).IErr?
    requires call(visited[|visited| - 1].key, visited[|visited| - 1].val).IErr? || visited == ps
    ensures RunPairs(ps, call, res) == call(visited[|visited| - 1].key, visited[|visited| - 1].val)
  {
    if |visited| > 1 {
      assert visited[1..] == ps[1..][..|visited| - 1];
      RunPrefix(ps[1..], visited[1..], call, call(ps[0].key, ps[0].val));
    }
  }
}
