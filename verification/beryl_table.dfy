/**
 * The open-addressing tables of the newer runtime (src/beryl.c):
 * `is_hashable`, `hash_val`, `search_table`, `table_get`, `index_table`,
 * `beryl_table_insert`, `beryl_new_table`, `beryl_table_should_grow` and
 * `beryl_iter_table`.
 *
 * A table is an array of key/value slots; an empty slot has a null key.
 * Number keys are not modelled (their hashing goes through floating point),
 * so every stored key is a string, a bool or a tag.
 */
module BerylTable {
  import opened CTypes
  import opened BerylValues
  import opened Probe

  /** `is_hashable`, without the integer-valued numbers. */
  predicate Hashable(key: Val): (r: bool)
    ensures r <==> key.TypeOf() in {TypeStr, TypeTag, TypeBool}
  {
    key.VStr? || key.VTag? || key.VBool?
  }

  /** A slot's key: null (empty) or hashable. */
  predicate KeyOk(key: Val)
  {
    key == VNull || Hashable(key)
  }

  /** The string hash: `h = h*7 + c` over the bytes as signed `char`s, in `size_t` arithmetic. */
  function StrHash(s: Bytes): (h: nat)
    ensures h < U64
  {
    if s == [] then 0 else Wrap64(StrHash(s[..|s| - 1]) * 7 + SignedChar(s[|s| - 1]))
  }

  /**
   * `hash_val`: bools hash to 0 or 1 and strings by `StrHash`.  Tags reach
   * the `default:` branch, whose `assert(false)` is compiled out in release
   * builds, so they all hash to 0.
   */
  function Hash(key: Val): (h: nat)
    ensures h < U64
  {
    match key
    case VBool(b) => if b then 1 else 0
    case VStr(s) => StrHash(s)
    case _ => 0
  }

  /** The home slot of each key in a table of capacity `n`. */
  function Home(n: nat): Val -> nat
    requires n > 0
  {
    k => Hash(k) % n
  }

  lemma HomeIn(n: nat)
    requires n > 0
    ensures HomesIn(n, Home(n))
  {
  }

  /** The slots' keys, empty slots as `None`. */
  function Keys(s: seq<Slot>): (keys: seq<Option<Val>>)
    ensures |keys| == |s|
    ensures forall i :: 0 <= i < |s| ==> keys[i] == (if s[i].key == VNull then None else Some(s[i].key))
  {
    seq(|s|, i requires 0 <= i < |s| => if s[i].key == VNull then None else Some(s[i].key))
  }

  /** Every key hashable, none stored twice, each reachable from its home slot. */
  ghost predicate WellFormed(s: seq<Slot>)
  {
    (forall i :: 0 <= i < |s| ==> KeyOk(s[i].key))
    && Unique(Keys(s))
    && (|s| > 0 ==> Chained(Keys(s), Home(|s|)))
  }

  /** The slot `table_get` returns for `key`. */
  function SlotFor(s: seq<Slot>, key: Val): (r: Option<nat>)
    ensures r.Some? ==> r.value < |s| && (s[r.value].key == VNull || s[r.value].key == key)
  {
    if !Hashable(key) || |s| == 0 then None else Find(Keys(s), key, Hash(key) % |s|)
  }

  /** What the table maps `key` to, if anything. */
  function Lookup(s: seq<Slot>, key: Val): Option<Val>
  {
    var r := SlotFor(s, key);
    if r.Some? && s[r.value].key != VNull then Some(s[r.value].val) else None
  }

  /** A stored key maps to the value beside it. */
  lemma LookupAt(s: seq<Slot>, j: nat)
    requires WellFormed(s) && j < |s| && s[j].key != VNull
    ensures Lookup(s, s[j].key) == Some(s[j].val)
  {
    FindPresent(Keys(s), Home(|s|), j);
  }

  /** A key stored nowhere maps to nothing. */
  lemma LookupAbsent(s: seq<Slot>, key: Val)
    requires forall j :: 0 <= j < |s| ==> s[j].key != key
    ensures Lookup(s, key) == None
  {
  }

  /** Slot `p` not holding `k` (before or after), other slots equal: `k` maps to the same thing. */
  lemma LookupOther(s: seq<Slot>, s': seq<Slot>, p: nat, k: Val)
    requires WellFormed(s) && WellFormed(s') && |s| == |s'| && p < |s|
    requires forall j :: 0 <= j < |s| && j != p ==> s'[j] == s[j]
    requires s[p].key != k && s'[p].key != k && k != VNull
    ensures Lookup(s', k) == Lookup(s, k)
  {
    if j :| 0 <= j < |s| && s[j].key == k {
      LookupAt(s, j);
      LookupAt(s', j);
    } else {
      LookupAbsent(s, k);
      LookupAbsent(s', k);
    }
  }

  /** Writing `key` into the slot its lookup ends at binds it and leaves every other key's lookup alone. */
  lemma WriteLookups(s: seq<Slot>, t: seq<Slot>, p: nat, key: Val, val: Val)
    requires WellFormed(s) && WellFormed(t) && p < |s| && key != VNull
    requires s[p].key == VNull || s[p].key == key
    requires t == s[p := Slot(key, val)]
    ensures Lookup(t, key) == Some(val)
    ensures forall k :: k != key ==> Lookup(t, k) == Lookup(s, k)
  {
    LookupAt(t, p);
    forall k | k != key
      ensures Lookup(t, k) == Lookup(s, k)
    {
      if k == VNull {
        assert Lookup(t, k) == None && Lookup(s, k) == None;
      } else {
        LookupOther(s, t, p, k);
      }
    }
  }

  /** Under well-formedness, `beryl_val_cmp` against a stored key is key equality. */
  lemma CmpIsKeyEquality(stored: Val, key: Val)
    requires Hashable(stored) && Hashable(key)
    ensures Cmp(stored, key) == 0 <==> stored == key
  {
    CmpZeroIffEqual(stored, key);
  }

  /** `hash_val`, with its loop over the string's bytes. */
  method HashVal(key: Val) returns (h: nat)
    requires Hashable(key)
    ensures h == Hash(key)
  {
    match key
    case VBool(b) => return if b then 1 else 0;
    case VTag(_) => return 0;
    case VStr(s) =>
      h := 0;
      var i := 0;
      while i < |s|
        invariant 0 <= i <= |s|
        invariant h == StrHash(s[..i])
      {
        assert s[..i + 1][..i] == s[..i];
        h := Wrap64(h * 7 + SignedChar(s[i]));
        i := i + 1;
      }
      assert s[..i] == s;
  }

  /** A table value: `entries` has the table's capacity, `len` counts occupied slots. */
  class Table {
    const entries: array<Slot>
    var len: nat

    ghost predicate Valid()
      reads this, entries
    {
      entries.Length < U32
      && len == Count(Keys(entries[..]))
      && WellFormed(entries[..])
    }

    constructor Empty(cap: nat)
      requires cap < U32
      ensures Valid() && len == 0 && entries.Length == cap && fresh(entries)
      ensures forall k :: Lookup(entries[..], k) == None
    {
      entries := new Slot[cap](_ => Slot(VNull, VNull));
      len := 0;
      new;
      assert Keys(entries[..]) == seq<Option<Val>>(cap, _ => None);
      CountEmpty<Val>(cap);
      if cap > 0 {
        HomeIn(cap);
        EmptyChained(cap, Home(cap));
      }
    }

    /**
     * `search_table`: the first slot in `[from, until)` whose key is null or
     * compares equal to `key`.
     */
    method SearchTable(key: Val, from: nat, until: nat) returns (r: Option<nat>)
      requires Valid() && Hashable(key)
      requires until <= entries.Length
      ensures r.Some? ==> from <= r.value < until && Stops(Keys(entries[..]), key)[r.value]
      ensures r.Some? ==> forall i :: from <= i < r.value ==> !Stops(Keys(entries[..]), key)[i]
      ensures r.None? ==> forall i :: from <= i < until ==> !Stops(Keys(entries[..]), key)[i]
    {
      var i := from;
      while i < until
        invariant from <= i || until <= from
        invariant forall j :: from <= j < i && j < until ==> !Stops(Keys(entries[..]), key)[j]
      {
        if entries[i].key == VNull {
          return Some(i);
        }
        var c := ValCmp(entries[i].key, key);
        CmpIsKeyEquality(entries[i].key, key);
        if c == 0 {
          return Some(i);
        }
        i := i + 1;
      }
      return None;
    }

    /** `table_get`: probe from the home slot to the end, then from slot 0 up to the home slot. */
    method TableGet(key: Val) returns (r: Option<nat>)
      requires Valid() && !key.VNumber?
      ensures r == SlotFor(entries[..], key)
    {
      if !Hashable(key) {
        return None;
      }
      var n := entries.Length;
      if n == 0 {
        return None;
      }
      var hash := HashVal(key);
      var index := hash % n;
      var first := SearchTable(key, index, n);
      var second := None;
      if first.None? {
        second := SearchTable(key, 0, index);
      }
      TwoScans(Stops(Keys(entries[..]), key), index, first, second);
      return if first.Some? then first else second;
    }

    /** `index_table`: the value stored under `key`, or null. */
    method IndexTable(key: Val) returns (v: Val)
      requires Valid() && !key.VNumber?
      ensures v == (if Lookup(entries[..], key).Some? then Lookup(entries[..], key).value else VNull)
    {
      var entry := TableGet(key);
      if entry.None? || entries[entry.value].key == VNull {
        return VNull;
      }
      return entries[entry.value].val;
    }

    /**
     * `beryl_table_insert`: 3 for an unhashable key, 1 when the table is full
     * (even if the key is present), 2 when the key is present and `replace`
     * is false, and otherwise 0 after storing the pair.
     */
    method Insert(key: Val, val: Val, replace: bool) returns (code: int)
      requires Valid() && !key.VNumber?
      modifies this, entries
      ensures Valid()
      ensures code == 3 <==> !Hashable(key)
      ensures code == 1 <==> Hashable(key) && old(len) == entries.Length
      ensures code == 2 <==>
        Hashable(key) && old(len) < entries.Length && old(Lookup(entries[..], key)).Some? && !replace
      ensures code == 0 <==>
        Hashable(key) && old(len) < entries.Length && (old(Lookup(entries[..], key)).None? || replace)
      ensures code != 0 ==> entries[..] == old(entries[..]) && len == old(len)
      ensures code == 0 ==> Lookup(entries[..], key) == Some(val)
      ensures code == 0 ==> len == old(len) + (if old(Lookup(entries[..], key)).None? then 1 else 0)
      ensures code == 0 ==> forall k :: k != key ==> Lookup(entries[..], k) == old(Lookup(entries[..], k))
    {
      if !Hashable(key) {
        return 3;
      }
      if len == entries.Length {
        return 1;
      }
      ghost var s := entries[..];
      var n := entries.Length;
      var empty := CountBelowFindsEmpty(Keys(s));
      HomeIn(n);
      FindTotal(Keys(s), key, Hash(key) % n, empty);
      var entry := TableGet(key);
      var p := entry.value;
      if entries[p].key != VNull {
        LookupAt(s, p);
        if !replace {
          return 2;
        }
      }
      StoreAt(p, key, val);
      return 0;
    }

    /**
     * Writes the pair into slot `p`, where the lookup of `key` ends: over
     * the old pair when the key is present, else into the empty slot.
     */
    method StoreAt(p: nat, key: Val, val: Val)
      requires Valid() && Hashable(key)
      requires SlotFor(entries[..], key) == Some(p)
      modifies this, entries
      ensures Valid()
      ensures Lookup(entries[..], key) == Some(val)
      ensures len == old(len) + (if old(Lookup(entries[..], key)).None? then 1 else 0)
      ensures forall k :: k != key ==> Lookup(entries[..], k) == old(Lookup(entries[..], k))
    {
      ghost var s := entries[..];
      if entries[p].key != VNull {
        LookupAt(s, p);
        entries[p] := Slot(key, val);
        assert Keys(entries[..]) == Keys(s);
      } else {
        FillAt(p, key, val);
      }
      WriteLookups(s, entries[..], p, key, val);
    }

    /** Stores a new key in the empty slot its lookup ends at. */
    method FillAt(p: nat, key: Val, val: Val)
      requires Valid() && Hashable(key)
      requires SlotFor(entries[..], key) == Some(p) && entries[p].key == VNull
      modifies this, entries
      ensures Valid() && len == old(len) + 1
      ensures old(Lookup(entries[..], key)) == None
      ensures entries[..] == old(entries[..])[p := Slot(key, val)]
    {
      ghost var s := entries[..];
      var n := entries.Length;
      assert Keys(s)[p] == None;
      LookupAbsent2(s, key, p);
      HomeIn(n);
      InsertChained(Keys(s), Home(n), key);
      CountFill(Keys(s), p, key);
      len := len + 1;
      entries[p] := Slot(key, val);
      assert Keys(entries[..]) == Keys(s)[p := Some(key)];
    }

    /**
     * `beryl_table_should_grow`: whether `extra` more keys would push the table
     * past a 3/4 load factor, computed in `unsigned int` arithmetic.
     */
    function ShouldGrow(extra: nat): (r: bool)
      reads this, entries
      requires extra < U32
      ensures (len + extra) * 4 < U32 && entries.Length < len + extra ==> r
      ensures (len + extra) * 4 < U32 && !r ==> entries.Length >= len + extra
    {
      var expected := Wrap32(Wrap32(len + extra) * 4) / 3;
      entries.Length < expected || expected < len
    }

    /**
     * `beryl_iter_table`: the next occupied slot after `iter` (or from the
     * first slot when `iter` is `None`); nothing for a table with no keys.
     */
    method IterTable(iter: Option<nat>) returns (r: Option<nat>)
      requires Valid()
      requires iter.Some? ==> iter.value < entries.Length
      ensures var start := if iter.Some? then iter.value + 1 else 0;
        && (r.Some? ==> start <= r.value < entries.Length && entries[r.value].key != VNull
                        && forall i :: start <= i < r.value ==> entries[i].key == VNull)
        && (r.None? ==> len == 0 || forall i :: start <= i < entries.Length ==> entries[i].key == VNull)
    {
      if len == 0 {
        return None;
      }
      var i := if iter.Some? then iter.value + 1 else 0;
      ghost var start := i;
      while i < entries.Length
        invariant start <= i <= entries.Length
        invariant forall j :: start <= j < i ==> entries[j].key == VNull
      {
        if entries[i].key != VNull {
          return Some(i);
        }
        i := i + 1;
      }
      return None;
    }
  }

  /** Where the lookup of `key` ends at an empty slot, the key is nowhere in the table. */
  lemma LookupAbsent2(s: seq<Slot>, key: Val, p: nat)
    requires WellFormed(s) && Hashable(key) && |s| > 0
    requires SlotFor(s, key) == Some(p) && s[p].key == VNull
    ensures forall j :: 0 <= j < |s| ==> s[j].key != key
    ensures Lookup(s, key) == None
  {
    HomeIn(|s|);
    FindAbsent(Keys(s), Home(|s|), key);
    forall j | 0 <= j < |s|
      ensures s[j].key != key
    {
      assert Keys(s)[j] != Some(key);
    }
  }

  /** An integer that is at least `n*4/3` is at least `n`. */
  lemma ShouldGrowMeansRoom(t: Table, extra: nat)
    requires t.Valid() && extra < U32 && (t.len + extra) * 4 < U32
    requires !t.ShouldGrow(extra)
    ensures t.entries.Length >= t.len + extra
  {
  }

  /**
   * `beryl_new_table`: `cap` slots, or `cap*3/2` in `unsigned int` arithmetic
   * when `padding` is set (null when that wraps below `cap`); null when the
   * allocation fails.  Every slot starts empty.
   */
  method NewTable(cap: nat, padding: bool, allocOk: bool) returns (t: Table?)
    requires cap < U32
    ensures t == null <==> (padding && Wrap32(cap * 3) / 2 < cap) || !allocOk
    ensures t != null ==> fresh(t) && fresh(t.entries) && t.Valid() && t.len == 0
    ensures t != null ==> t.entries.Length == (if padding then Wrap32(cap * 3) / 2 else cap)
    ensures t != null ==> forall k :: Lookup(t.entries[..], k) == None
  {
    var size := cap;
    if padding {
      var padded := Wrap32(cap * 3) / 2;
      if padded < cap {
        return null;
      }
      size := padded;
    }
    if !allocOk {
      return null;
    }
    t := new Table.Empty(size);
  }

  /** Without wrap-around, padding gives at least the requested capacity. */
  lemma PaddingGrows(cap: nat)
    requires cap * 3 < U32
    ensures Wrap32(cap * 3) / 2 >= cap
  {
  }
}
