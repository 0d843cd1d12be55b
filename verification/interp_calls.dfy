/**
 * Calls in the older runtime (src/interpreter.c, `beryl_call_fn` and
 * `call_internal_fn`): the arity rule for external functions, indexing an
 * array by calling it, and how a script function's parameters are bound to
 * the arguments before its body runs.
 *
 * The body itself is evaluated by the recursive evaluator, which is not part
 * of this model; a script function's parameter list is given as the tokens
 * the lexer produces between `function` and `do`.
 */
module ICalls {
  import opened CTypes
  import opened IValues
  import opened IEnv
  import BerylEnv

  /** `RECURSION_LIMIT` */
  const RECURSION_LIMIT: nat := 64

  /**
   * The arity check of `beryl_call_fn` for external functions: `None` when
   * the call goes ahead.  A non-negative arity is exact; a negative arity
   * `-k-1` asks for at least `k` arguments.
   */
  function CheckArity(arity: int, nArgs: nat): (r: Option<IVal>)
    ensures r.None? <==> (if arity >= 0 then nArgs == arity else nArgs >= -arity - 1)
    ensures arity >= 0 && nArgs > arity ==> r == Some(Err("Too many arguments"))
    ensures r.Some? && !(arity >= 0 && nArgs > arity) ==> r == Some(Err("Not enough arguments"))
  {
    var minArgs := if arity >= 0 then arity else -arity - 1;
    if arity >= 0 && nArgs > minArgs then Some(Err("Too many arguments"))
    else if nArgs < minArgs then Some(Err("Not enough arguments"))
    else None
  }

  /** Calling an array: one int argument in `[0, len)` selects that element. */
  function CallArray(items: seq<IVal>, args: seq<IVal>): (r: IVal)
    ensures (|args| == 1 && args[0].IInt? && 0 <= args[0].i < |items|) ==> r == items[args[0].i]
    ensures |args| != 1 ==> r == Err("Can only index array with a single index")
    ensures |args| == 1 && !args[0].IInt? ==> r == Err("Can only index array with integer values")
    ensures |args| == 1 && args[0].IInt? && !(0 <= args[0].i < |items|) ==> r == Err("Index out of range")
  {
    if |args| != 1 then Err("Can only index array with a single index")
    else if !args[0].IInt? then Err("Can only index array with integer values")
    else if args[0].i < 0 || args[0].i >= |items| then Err("Index out of range")
    else items[args[0].i]
  }

  // ---------------------------------------------------------------- parameter binding

  /** A token of a parameter list: a name (symbol or operator), the variadic marker, or anything else. */
  datatype Param = PName(name: Bytes) | PVarargs | POther

  /** A bound parameter: its name and value. */
  datatype Binding = Binding(name: Bytes, val: IVal)

  /** The stack entries for some bindings: mutable, in the function's namespace. */
  function Entries(bs: seq<Binding>, ns: BerylEnv.Namespace): (r: seq<IEntry>)
    ensures |r| == |bs|
    ensures forall j :: 0 <= j < |bs| ==> r[j] == IEntry(bs[j].name, bs[j].val, false, ns)
  {
    seq(|bs|, j requires 0 <= j < |bs| => IEntry(bs[j].name, bs[j].val, false, ns))
  }

  lemma EntriesSnoc(bs: seq<Binding>, b: Binding, ns: BerylEnv.Namespace)
    ensures Entries(bs + [b], ns) == Entries(bs, ns) + [IEntry(b.name, b.val, false, ns)]
  {
  }

  function BoundNames(bs: seq<Binding>): (r: seq<Bytes>)
    ensures |r| == |bs|
    ensures forall j :: 0 <= j < |bs| ==> r[j] == bs[j].name
  {
    seq(|bs|, j requires 0 <= j < |bs| => bs[j].name)
  }

  /** The name the collected variadic arguments are bound to, whatever the list declares. */
  const VARARGS_NAME: Bytes := Lit("varargs")

  /**
   * The binding loop of `call_internal_fn` from parameter token `k` and
   * argument `i` on, with `acc` bound so far and room for `room` entries on
   * the stack: an entry that does not fit is dropped, as `push_stack`'s
   * failure is ignored.
   */
  function Bind(params: seq<Param>, args: seq<IVal>, k: nat, i: nat, acc: seq<Binding>, room: nat, allocOk: bool)
    : Result<seq<Binding>>
    requires k <= |params| && i <= |args|
    decreases |params| - k
  {
    if k == |params| then
      (if i != |args| then Fail("Too many arguments when calling function") else Ok(acc))
    else
      match params[k]
      case PVarargs =>
        if |args| - i > I_SIZE_MAX || !allocOk then Fail("Out of memory")
        else
          var b := Binding(VARARGS_NAME, IArray(args[i..]));
          Ok(if |acc| < room then acc + [b] else acc)
      case POther => Fail("Not an argument")
      case PName(n) =>
        if i == |args| then Fail("Not enough arguments provided when calling function")
        else if n in BoundNames(acc) then Fail("Duplicate argument name")
        else
          var b := Binding(n, args[i]);
          Bind(params, args, k + 1, i + 1, if |acc| < room then acc + [b] else acc, room, allocOk)
  }

  function Zip(names: seq<Bytes>, vals: seq<IVal>): (r: seq<Binding>)
    requires |names| == |vals|
    ensures |r| == |names|
    ensures forall j :: 0 <= j < |names| ==> r[j] == Binding(names[j], vals[j])
  {
    seq(|names|, j requires 0 <= j < |names| => Binding(names[j], vals[j]))
  }

  predicate Distinct(names: seq<Bytes>)
  {
    forall a, b :: 0 <= a < b < |names| ==> names[a] != names[b]
  }

  function ParamNames(params: seq<Param>): (r: seq<Bytes>)
    requires forall j :: 0 <= j < |params| ==> params[j].PName?
    ensures |r| == |params|
    ensures forall j :: 0 <= j < |params| ==> r[j] == params[j].name
  {
    seq(|params|, j requires 0 <= j < |params| => params[j].name)
  }

  /** A name not among the first `k` keeps the first `k + 1` distinct. */
  lemma DistinctExtend(names: seq<Bytes>, k: nat)
    requires k < |names| && Distinct(names[..k]) && names[k] !in names[..k]
    ensures Distinct(names[..k + 1])
  {
    var pre := names[..k + 1];
    forall x: int, y: int | 0 <= x < y < k + 1
      ensures pre[x] != pre[y]
    {
      assert pre[x] == names[..k][x];
      if y < k {
        assert pre[y] == names[..k][y];
      }
    }
  }

  /** Binding one more name to one more argument. */
  lemma ZipSnoc(names: seq<Bytes>, args: seq<IVal>, k: nat)
    requires k < |names| && k < |args|
    ensures Zip(names[..k], args[..k]) + [Binding(names[k], args[k])] == Zip(names[..k + 1], args[..k + 1])
  {
  }

  /**
   * With plain named parameters and room for them all, binding succeeds
   * exactly when the counts agree and the names are distinct, and then binds
   * each name to the argument at its position.
   */
  lemma {:induction false} BindPlain(params: seq<Param>, args: seq<IVal>, k: nat, room: nat, allocOk: bool)
    requires forall j :: 0 <= j < |params| ==> params[j].PName?
    requires |params| <= room && k <= |params| && k <= |args|
    requires Distinct(ParamNames(params)[..k])
    ensures Distinct(ParamNames(params)) ==>
      Bind(params, args, k, k, Zip(ParamNames(params)[..k], args[..k]), room, allocOk)
      == if |params| == |args| then Ok(Zip(ParamNames(params), args))
         else if |args| < |params| then Fail("Not enough arguments provided when calling function")
         else Fail("Too many arguments when calling function")
    ensures !Distinct(ParamNames(params)) ==>
      Bind(params, args, k, k, Zip(ParamNames(params)[..k], args[..k]), room, allocOk).Fail?
    decreases |params| - k
  {
    var names := ParamNames(params);
    var acc := Zip(names[..k], args[..k]);
    if k == |params| {
      assert names[..k] == names;
      if |params| == |args| {
        assert args[..k] == args;
      }
    } else if k == |args| {
      assert !(|params| == |args|);
    } else {
      var n := params[k].name;
      assert BoundNames(acc) == names[..k];
      if n in names[..k] {
        var a :| 0 <= a < k && names[..k][a] == n;
        assert names[a] == names[k];
        assert !Distinct(names);
      } else {
        DistinctExtend(names, k);
        ZipSnoc(names, args, k);
        assert Bind(params, args, k, k, acc, room, allocOk)
            == Bind(params, args, k + 1, k + 1, Zip(names[..k + 1], args[..k + 1]), room, allocOk);
        BindPlain(params, args, k + 1, room, allocOk);
      }
    }
  }

  /**
   * A variadic function `names... varargs rest`: when there are at least as
   * many arguments as names, the names take the leading arguments and the
   * rest go, as one array, to a variable called `varargs`.
   */
  lemma {:induction false} BindVariadic(params: seq<Param>, m: nat, args: seq<IVal>, k: nat, room: nat)
    requires m + 2 == |params| && params[m] == PVarargs && params[m + 1].PName?
    requires forall j :: 0 <= j < m ==> params[j].PName?
    requires Distinct(ParamNames(params[..m]))
    requires m < room && k <= m <= |args| && |args| - m <= I_SIZE_MAX
    ensures Bind(params, args, k, k, Zip(ParamNames(params[..m])[..k], args[..k]), room, true)
         == Ok(Zip(ParamNames(params[..m]), args[..m]) + [Binding(VARARGS_NAME, IArray(args[m..]))])
    decreases m - k
  {
    var names := ParamNames(params[..m]);
    var acc := Zip(names[..k], args[..k]);
    if k == m {
      assert names[..k] == names;
    } else {
      assert params[k] == params[..m][k];
      var n := params[k].name;
      assert BoundNames(acc) == names[..k];
      assert n !in names[..k] by {
        forall a | 0 <= a < k
          ensures names[..k][a] != n
        {
          assert names[..k][a] == names[a];
        }
      }
      assert acc + [Binding(n, args[k])] == Zip(names[..k + 1], args[..k + 1]);
      BindVariadic(params, m, args, k + 1, room);
    }
  }

  lemma NotBound(live: seq<IEntry>, live0: seq<IEntry>, acc: seq<Binding>, ns: BerylEnv.Namespace, n: Bytes)
    requires live == live0 + Entries(acc, ns)
    requires forall j :: |live0| <= j < |live| ==> live[j].name != n
    ensures n !in BoundNames(acc)
  {
    forall j | 0 <= j < |acc|
      ensures BoundNames(acc)[j] != n
    {
      assert live[|live0| + j] == Entries(acc, ns)[j];
    }
  }

  /** Closes the scope opened for a call whose binding failed; the released values are dropped. */
  method Unwind(env: Env, prev: nat, ghost live0: seq<IEntry>)
    requires env.Valid() && prev <= env.base == |live0| && env.Live()[..|live0|] == live0
    modifies env
    ensures env.Valid() && env.current == old(env.current)
    ensures env.Live() == live0 && env.base == prev
  {
    assert env.stack[..env.base] == env.Live()[..|live0|];
    var _ := env.LeaveScope(prev);
  }

  /** The state of the binding loop: the scope opened over `live0`, holding `acc`. */
  ghost predicate BindingState(env: Env, live0: seq<IEntry>, acc: seq<Binding>, ns: BerylEnv.Namespace, room: nat)
    reads env, env.stack
  {
    && env.Valid() && env.base == |live0| && |acc| <= room && room == I_STACK_SIZE - |live0|
    && env.Live() == live0 + Entries(acc, ns)
  }

  /**
   * One turn of the binding loop of `call_internal_fn`, at parameter token
   * `k` and argument `i`: either binds a name and goes on (`None`), or ends
   * the loop with an error (scope closed) or after the variadic parameter.
   */
  method BindNext(env: Env, prev: nat, ns: BerylEnv.Namespace, params: seq<Param>, args: seq<IVal>, k: nat, i: nat,
                  allocOk: bool, ghost live0: seq<IEntry>, ghost acc: seq<Binding>, ghost room: nat)
    returns (stop: Option<Result<nat>>, ghost acc': seq<Binding>)
    requires k < |params| && i <= |args| && prev <= |live0|
    requires BindingState(env, live0, acc, ns, room)
    modifies env, env.stack
    ensures env.Valid() && env.current == old(env.current)
    ensures stop.None? ==>
      && i < |args| && BindingState(env, live0, acc', ns, room)
      && Bind(params, args, k, i, acc, room, allocOk) == Bind(params, args, k + 1, i + 1, acc', room, allocOk)
    ensures stop.Some? && stop.value.Fail? ==>
      && Bind(params, args, k, i, acc, room, allocOk) == Fail(stop.value.msg)
      && env.Live() == live0 && env.base == prev
    ensures stop.Some? && stop.value.Ok? ==>
      && Bind(params, args, k, i, acc, room, allocOk) == Ok(acc')
      && stop.value == Ok(prev) && BindingState(env, live0, acc', ns, room)
  {
    acc' := acc;
    assert env.Live()[..|live0|] == live0;
    match params[k]
    case POther =>
      Unwind(env, prev, live0);
      stop := Some(Fail("Not an argument"));
    case PVarargs =>
      if |args| - i > I_SIZE_MAX || !allocOk {
        Unwind(env, prev, live0);
        return Some(Fail("Out of memory")), acc;
      }
      var b := Binding(VARARGS_NAME, IArray(args[i..]));
      var pushed := env.PushStack(IEntry(b.name, b.val, false, ns));
      if pushed {
        EntriesSnoc(acc, b, ns);
        acc' := acc + [b];
      }
      stop := Some(Ok(prev));
    case PName(n) =>
      if i == |args| {
        Unwind(env, prev, live0);
        return Some(Fail("Not enough arguments provided when calling function")), acc;
      }
      var local := env.GetLocal(n);
      if local.Some? {
        ghost var j := local.value - |live0|;
        assert Entries(acc, ns)[j] == env.Live()[local.value];
        assert BoundNames(acc)[j] == n;
        Unwind(env, prev, live0);
        return Some(Fail("Duplicate argument name")), acc;
      }
      NotBound(env.Live(), live0, acc, ns, n);
      var b := Binding(n, args[i]);
      var pushed := env.PushStack(IEntry(b.name, b.val, false, ns));
      if pushed {
        EntriesSnoc(acc, b, ns);
        acc' := acc + [b];
      }
      stop := None;
  }

  /**
   * `call_internal_fn` up to the evaluation of the body: fails past 64
   * nested calls; otherwise opens a scope, binds the parameters in the
   * function's namespace, and either returns the previous base (the scope
   * left open for the body) or, on an error, closes the scope again.
   */
  method BindArguments(env: Env, depth: nat, fnStart: nat, fnLen: nat, params: seq<Param>, args: seq<IVal>, allocOk: bool)
    returns (r: Result<nat>)
    requires env.Valid()
    modifies env, env.stack
    ensures env.Valid() && env.current == old(env.current)
    ensures depth >= RECURSION_LIMIT ==> r == Fail("Recursion limit exceeded") && env.Live() == old(env.Live()) && env.base == old(env.base)
    ensures depth < RECURSION_LIMIT ==>
      var b := Bind(params, args, 0, 0, [], I_STACK_SIZE - old(env.top), allocOk);
      && (b.Fail? ==> r == Fail(b.msg) && env.Live() == old(env.Live()) && env.base == old(env.base))
      && (b.Ok? ==>
            r == Ok(old(env.base)) && env.base == old(env.top) && env.Live() == old(env.Live()) + Entries(b.value, BerylEnv.Namespace(fnStart, fnStart + fnLen)))
  {
    if depth >= RECURSION_LIMIT {
      return Fail("Recursion limit exceeded");
    }
    ghost var live0 := env.Live();
    var prev := env.EnterScope();
    var ns := BerylEnv.Namespace(fnStart, fnStart + fnLen);
    ghost var room := I_STACK_SIZE - env.top;
    ghost var acc: seq<Binding> := [];
    ghost var spec := Bind(params, args, 0, 0, [], room, allocOk);
    var k, i := 0, 0;
    while k < |params|
      invariant env.current == old(env.current) && prev == old(env.base) && prev <= |live0|
      invariant k <= |params| && i <= |args| && BindingState(env, live0, acc, ns, room)
      invariant spec == Bind(params, args, k, i, acc, room, allocOk)
      decreases |params| - k
    {
      var stop;
      stop, acc := BindNext(env, prev, ns, params, args, k, i, allocOk, live0, acc, room);
      if stop.Some? {
        return stop.value;
      }
      k, i := k + 1, i + 1;
    }
    if i != |args| {
      assert env.Live()[..|live0|] == live0;
      Unwind(env, prev, live0);
      return Fail("Too many arguments when calling function");
    }
    return Ok(prev);
  }
}
