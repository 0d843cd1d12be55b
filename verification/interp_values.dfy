/**
 * Values of the older runtime (src/interpreter.c, src/interpreter.h), which
 * the built-in libraries are written against, with its two comparisons:
 * the structural equality `i_val_eq` and the numeric three-way comparison
 * `i_val_cmp`.
 *
 * A value is described by its contents.  Floats are `real`s: their
 * rounding and NaN are not modelled.  Instances of dynamic types (such as
 * the tables of the data-structures library) are opaque here: a type id
 * and a pointer.
 */
module IValues {
  import opened CTypes

  /** `BERYL_N_STATIC_TYPES`: the static type ids are 0 to 9. */
  const N_STATIC_TYPES: nat := 10

  /** The static types of src/interpreter.h, the tag type, and the dynamic type ids. */
  datatype IType =
    | TNull | TBool | TInt | TFloat | TStr | TArray | TFn | TExtFn | TErr | TReturnMarker
    | TTag | TDyn(id: nat)

  datatype IVal =
    | INull
    | IBool(b: bool)
    | IInt(i: i64)
    | IFloat(f: real)
    | IStr(s: Bytes)
    | IArray(items: seq<IVal>)
    /** A script function: where its source text starts, and its length. */
    | IFn(src: nat, len: nat)
    /** An external (C) function, identified by its callback. */
    | IExtFn(callback: nat)
    | IErr(msg: Bytes)
    /** `I_EARLY_RETURN`: the marker a `return` leaves behind. */
    | IReturnMarker
    | ITag(tag: i64)
    /** An instance of a dynamic type registered with `beryl_add_type`. */
    | IDyn(ty: nat, ptr: nat)
  {
    function TypeOf(): IType
    {
      match this
      case INull => TNull
      case IBool(_) => TBool
      case IInt(_) => TInt
      case IFloat(_) => TFloat
      case IStr(_) => TStr
      case IArray(_) => TArray
      case IFn(_, _) => TFn
      case IExtFn(_) => TExtFn
      case IErr(_) => TErr
      case IReturnMarker => TReturnMarker
      case ITag(_) => TTag
      case IDyn(t, _) => TDyn(t)
    }
  }

  /** `STATIC_ERR(msg)`: an error value carrying a literal message. */
  function Err(msg: string): (e: IVal)
    ensures e.IErr? && |e.msg| == |msg|
  {
    IErr(Lit(msg))
  }

  // ---------------------------------------------------------------- equality

  /**
   * `i_val_eq`: values of different types are unequal; numbers, bools and
   * tags compare by value, strings by bytes, script functions by where their
   * source starts, external functions by callback, arrays element-wise; null
   * equals null; errors, return markers and dynamic values are never equal.
   */
  function IEq(a: IVal, b: IVal): bool
    decreases a, 1
  {
    if a.TypeOf() != b.TypeOf() then false
    else
      match a
      case IInt(x) => x == b.i
      case IBool(x) => x == b.b
      case ITag(x) => x == b.tag
      case IFloat(x) => x == b.f
      case IStr(x) => x == b.s
      case IFn(p, _) => p == b.src
      case IExtFn(c) => c == b.callback
      case IArray(xs) => |xs| == |b.items| && ItemsEq(xs, b.items)
      case INull => true
      case _ => false
  }

  /** Element-wise `i_val_eq` over two arrays of the same length. */
  function ItemsEq(xs: seq<IVal>, ys: seq<IVal>): bool
    requires |xs| == |ys|
    decreases xs, 0
  {
    xs == [] || (IEq(xs[0], ys[0]) && ItemsEq(xs[1..], ys[1..]))
  }

  /** Values `i_val_eq` finds equal to themselves: no errors, markers or dynamic values inside. */
  predicate Equatable(v: IVal)
  {
    match v
    case IErr(_) => false
    case IReturnMarker => false
    case IDyn(_, _) => false
    case IArray(items) => forall i :: 0 <= i < |items| ==> Equatable(items[i])
    case _ => true
  }

  /** Equatable values that hold no script function, whose length `i_val_eq` ignores. */
  predicate Plain(v: IVal)
  {
    match v
    case IErr(_) => false
    case IReturnMarker => false
    case IDyn(_, _) => false
    case IFn(_, _) => false
    case IArray(items) => forall i :: 0 <= i < |items| ==> Plain(items[i])
    case _ => true
  }

  /** Arrays are equal exactly when they agree at every index. */
  lemma {:induction false} ItemsEqAt(xs: seq<IVal>, ys: seq<IVal>)
    requires |xs| == |ys|
    ensures ItemsEq(xs, ys) <==> forall i :: 0 <= i < |xs| ==> IEq(xs[i], ys[i])
    decreases |xs|
  {
    if xs != [] {
      ItemsEqAt(xs[1..], ys[1..]);
      if forall i :: 0 <= i < |xs| ==> IEq(xs[i], ys[i]) {
        assert forall i :: 0 <= i < |xs| - 1 ==> xs[1..][i] == xs[i + 1] && ys[1..][i] == ys[i + 1];
      }
      if ItemsEq(xs, ys) {
        forall i | 0 <= i < |xs|
          ensures IEq(xs[i], ys[i])
        {
          if i > 0 {
            assert xs[i] == xs[1..][i - 1] && ys[i] == ys[1..][i - 1];
          }
        }
      }
    }
  }

  /** `i_val_eq` does not depend on the order of its operands. */
  lemma {:induction false} IEqSymmetric(a: IVal, b: IVal)
    ensures IEq(a, b) == IEq(b, a)
    decreases a
  {
    if a.TypeOf() == b.TypeOf() && a.IArray? && |a.items| == |b.items| {
      forall i | 0 <= i < |a.items|
        ensures IEq(a.items[i], b.items[i]) == IEq(b.items[i], a.items[i])
      {
        IEqSymmetric(a.items[i], b.items[i]);
      }
      ItemsEqAt(a.items, b.items);
      ItemsEqAt(b.items, a.items);
    }
  }

  /** A value equals itself exactly when it is equatable. */
  lemma {:induction false} IEqReflexive(a: IVal)
    ensures IEq(a, a) <==> Equatable(a)
    decreases a
  {
    if a.IArray? {
      forall i | 0 <= i < |a.items|
        ensures IEq(a.items[i], a.items[i]) <==> Equatable(a.items[i])
      {
        IEqReflexive(a.items[i]);
      }
      ItemsEqAt(a.items, a.items);
    }
  }

  /** `i_val_eq` is transitive. */
  lemma {:induction false} IEqTransitive(a: IVal, b: IVal, c: IVal)
    requires IEq(a, b) && IEq(b, c)
    ensures IEq(a, c)
    decreases a
  {
    if a.IArray? {
      ItemsEqAt(a.items, b.items);
      ItemsEqAt(b.items, c.items);
      forall i | 0 <= i < |a.items|
        ensures IEq(a.items[i], c.items[i])
      {
        IEqTransitive(a.items[i], b.items[i], c.items[i]);
      }
      ItemsEqAt(a.items, c.items);
    }
  }

  /** On values without script functions, `i_val_eq` is exactly equality of contents. */
  lemma {:induction false} IEqIsEquality(a: IVal, b: IVal)
    requires Plain(a)
    ensures IEq(a, b) <==> a == b
    decreases a
  {
    if a.IArray? && b.IArray? && |a.items| == |b.items| {
      forall i | 0 <= i < |a.items|
        ensures IEq(a.items[i], b.items[i]) <==> a.items[i] == b.items[i]
      {
        IEqIsEquality(a.items[i], b.items[i]);
      }
      ItemsEqAt(a.items, b.items);
      if IEq(a, b) {
        assert a.items == b.items;
      }
    }
  }

  // ---------------------------------------------------------------- ordering

  /**
   * `i_val_cmp`: for two ints or two floats, 0 when equal, -1 when `a` is
   * larger, 1 when `b` is larger; 2 for any other pair.
   */
  function ICmp(a: IVal, b: IVal): (r: int)
    ensures r in {-1, 0, 1, 2}
    ensures r == 2 <==> !((a.IInt? && b.IInt?) || (a.IFloat? && b.IFloat?))
  {
    if a.IInt? && b.IInt? then
      (if a.i == b.i then 0 else if a.i > b.i then -1 else 1)
    else if a.IFloat? && b.IFloat? then
      (if a.f == b.f then 0 else if a.f > b.f then -1 else 1)
    else 2
  }

  /** The numeric value of an int or float. */
  function Num(v: IVal): real
    requires v.IInt? || v.IFloat?
  {
    if v.IInt? then v.i as real else v.f
  }

  /** `i_val_cmp` orders comparable values by their numeric value and agrees with `i_val_eq`. */
  lemma CmpMeansOrder(a: IVal, b: IVal)
    requires ICmp(a, b) != 2
    ensures ICmp(a, b) == 0 <==> IEq(a, b)
    ensures ICmp(a, b) == 0 <==> Num(a) == Num(b)
    ensures ICmp(a, b) == 1 <==> Num(a) < Num(b)
    ensures ICmp(a, b) == -1 <==> Num(a) > Num(b)
  {
  }

  /** Swapping the operands flips the order. */
  lemma CmpAntisymmetric(a: IVal, b: IVal)
    ensures ICmp(b, a) == (if ICmp(a, b) == 2 then 2 else -ICmp(a, b))
  {
  }

  /** "`b` is larger" chains. */
  lemma CmpTransitive(a: IVal, b: IVal, c: IVal)
    requires ICmp(a, b) == 1 && ICmp(b, c) == 1
    ensures ICmp(a, c) == 1
  {
  }
}
