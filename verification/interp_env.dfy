/**
 * The variable environment of the older runtime (src/interpreter.c): one
 * static stack of 128 entries holding every variable, global or local, with
 * its scopes; the dynamic-type registry; and the bounded error buffers with
 * the pending return value.
 *
 * Unlike the newer runtime there is no hashed globals table: `get_global`
 * scans the whole stack, newest entry first.  Retaining and releasing values
 * is not tracked; operations that release values return them instead.
 */
module IEnv {
  import opened CTypes
  import opened IValues
  import BerylValues
  import BerylEnv
  import opened Probe

  /** `STATIC_STACK_SIZE` of src/interpreter.c. */
  const I_STACK_SIZE: nat := 128
  /** `MAX_DYN_TYPES` */
  const MAX_DYN_TYPES: nat := 8
  /** `I_MAX_TYPES`: `UCHAR_MAX`. */
  const I_MAX_TYPES: nat := 255
  /** `STACK_TRACE_MAX` */
  const STACK_TRACE_MAX: nat := 16
  /** `MAX_ERR_ARGUMENTS` */
  const MAX_ERR_ARGUMENTS: nat := 4

  /** A `stack_entry` of the older runtime. */
  datatype IEntry = IEntry(name: Bytes, val: IVal, isConst: bool, ns: BerylEnv.Namespace)

  /** Entries `get_global` accepts from namespace `cur`: top-level, or nested in or around it. */
  predicate IVisible(e: IEntry, cur: BerylEnv.Namespace)
  {
    e.ns.start == 0 || BerylEnv.Overlap(e.ns, cur)
  }

  predicate Accepts(e: IEntry, name: Bytes, cur: BerylEnv.Namespace)
  {
    e.name == name && IVisible(e, cur)
  }

  /** The index of the newest entry `get_global` accepts for `name`. */
  function FindGlobal(live: seq<IEntry>, name: Bytes, cur: BerylEnv.Namespace): (r: Option<nat>)
    ensures r.Some? ==> r.value < |live| && Accepts(live[r.value], name, cur)
    ensures r.Some? ==> forall j :: r.value < j < |live| ==> !Accepts(live[j], name, cur)
    ensures r.None? ==> forall j :: 0 <= j < |live| ==> !Accepts(live[j], name, cur)
  {
    if live == [] then None
    else if Accepts(live[|live| - 1], name, cur) then Some(|live| - 1)
    else
      var r := FindGlobal(live[..|live| - 1], name, cur);
      assert forall j :: 0 <= j < |live| - 1 ==> live[..|live| - 1][j] == live[j];
      r
  }

  /** The newest accepted entry is the one `FindGlobal` names. */
  lemma FindGlobalIs(live: seq<IEntry>, name: Bytes, cur: BerylEnv.Namespace, k: nat)
    requires k < |live| && Accepts(live[k], name, cur)
    requires forall j :: k < j < |live| ==> !Accepts(live[j], name, cur)
    ensures FindGlobal(live, name, cur) == Some(k)
  {
  }

  /** Pushing an entry: it is found for its own name, and other lookups are unchanged. */
  lemma {:induction false} FindGlobalSnoc(live: seq<IEntry>, e: IEntry, name: Bytes, cur: BerylEnv.Namespace)
    ensures FindGlobal(live + [e], name, cur)
      == if Accepts(e, name, cur) then Some(|live|) else FindGlobal(live, name, cur)
  {
    assert (live + [e])[..|live|] == live;
  }

  /** Lookups see only names and namespaces, not values or constness. */
  lemma {:induction false} FindGlobalKeys(a: seq<IEntry>, b: seq<IEntry>, name: Bytes, cur: BerylEnv.Namespace)
    requires |a| == |b|
    requires forall i :: 0 <= i < |a| ==> a[i].name == b[i].name && a[i].ns == b[i].ns
    ensures FindGlobal(a, name, cur) == FindGlobal(b, name, cur)
    decreases |a|
  {
    if a != [] {
      var n := |a| - 1;
      FindGlobalKeys(a[..n], b[..n], name, cur);
    }
  }

  /** The variable stack and the current namespace. */
  class Env {
    const stack: array<IEntry>
    var top: nat
    var base: nat
    var current: BerylEnv.Namespace

    ghost predicate Valid()
      reads this
    {
      stack.Length == I_STACK_SIZE && base <= top <= I_STACK_SIZE
    }

    constructor ()
      ensures Valid() && top == 0 && base == 0 && current == BerylEnv.TopLevel
    {
      stack := new IEntry[I_STACK_SIZE](_ => IEntry([], INull, false, BerylEnv.TopLevel));
      top, base, current := 0, 0, BerylEnv.TopLevel;
    }

    /** The entries in use. */
    function Live(): seq<IEntry>
      reads this, stack
      requires Valid()
    {
      stack[..top]
    }

    /** `push_stack`: fails once all 128 entries are in use. */
    method PushStack(e: IEntry) returns (ok: bool)
      requires Valid()
      modifies this, stack
      ensures Valid() && base == old(base) && current == old(current)
      ensures ok <==> old(top) < I_STACK_SIZE
      ensures ok ==> Live() == old(Live()) + [e]
      ensures !ok ==> Live() == old(Live()) && top == old(top)
    {
      if top < I_STACK_SIZE {
        stack[top] := e;
        top := top + 1;
        assert stack[..top] == old(stack[..top]) + [e];
        return true;
      }
      return false;
    }

    /** `enter_scope`: the new scope starts at the top; the old base is returned. */
    method EnterScope() returns (prev: nat)
      requires Valid()
      modifies this
      ensures Valid() && top == old(top) && current == old(current)
      ensures prev == old(base) && base == top
    {
      prev := base;
      base := top;
    }

    /** `leave_scope`: releases the innermost scope newest first, cuts the stack back to it and restores the base. */
    method LeaveScope(prev: nat) returns (released: seq<IVal>)
      requires Valid() && prev <= base
      modifies this
      ensures Valid() && current == old(current)
      ensures |released| == old(top) - old(base)
      ensures forall i :: 0 <= i < |released| ==> released[i] == old(stack[top - 1 - i].val)
      ensures top == old(base) && base == prev
      ensures Live() == old(stack[..base])
    {
      released := [];
      var p := top;
      while p > base
        invariant base <= p <= top
        invariant |released| == top - p
        invariant forall i :: 0 <= i < |released| ==> released[i] == stack[top - 1 - i].val
      {
        p := p - 1;
        released := released + [stack[p].val];
      }
      top := base;
      base := prev;
    }

    /** `get_local`: the newest entry of the innermost scope with this name. */
    method GetLocal(name: Bytes) returns (r: Option<nat>)
      requires Valid()
      ensures r.Some? ==> base <= r.value < top && stack[r.value].name == name
      ensures r.Some? ==> forall j :: r.value < j < top ==> stack[j].name != name
      ensures r.None? ==> forall j :: base <= j < top ==> stack[j].name != name
    {
      var v := top;
      while v > base
        invariant base <= v <= top
        invariant forall j :: v <= j < top ==> stack[j].name != name
      {
        v := v - 1;
        var eq := BerylValues.CmpLenStrs(stack[v].name, name);
        if eq {
          return Some(v);
        }
      }
      return None;
    }

    /** `get_global`: the whole stack, newest first, keeping only entries visible from the current namespace. */
    method GetGlobal(name: Bytes) returns (r: Option<nat>)
      requires Valid()
      ensures r == FindGlobal(Live(), name, current)
    {
      var v := top;
      while v > 0
        invariant 0 <= v <= top
        invariant forall j :: v <= j < top ==> !Accepts(stack[j], name, current)
      {
        v := v - 1;
        if stack[v].ns.start == 0 || BerylEnv.Overlap(stack[v].ns, current) {
          var eq := BerylValues.CmpLenStrs(stack[v].name, name);
          if eq {
            FindGlobalIs(Live(), name, current, v);
            return Some(v);
          }
        }
      }
      return None;
    }

    /**
     * `beryl_set_var`: a visible variable of that name is replaced in place
     * unless it is constant; with none visible, a new entry in the current
     * namespace is pushed, which fails when the stack is full.
     */
    method SetVar(name: Bytes, val: IVal, asConst: bool) returns (ok: bool)
      requires Valid()
      modifies this, stack
      ensures Valid() && base == old(base) && current == old(current)
      ensures var found := FindGlobal(old(Live()), name, current);
        && (!ok <==> (found.None? && old(top) == I_STACK_SIZE) || (found.Some? && old(Live())[found.value].isConst))
        && (found.None? && ok ==> Live() == old(Live()) + [IEntry(name, val, asConst, current)])
        && (found.Some? && ok ==> Live() == old(Live())[found.value := old(Live())[found.value].(val := val, isConst := asConst)])
        && (!ok ==> Live() == old(Live()))
      ensures ok ==> var k := FindGlobal(Live(), name, current);
        k.Some? && Live()[k.value].val == val && Live()[k.value].isConst == asConst
      ensures forall other :: other != name ==> FindGlobal(Live(), other, current) == FindGlobal(old(Live()), other, current)
    {
      ghost var live := Live();
      var found := GetGlobal(name);
      if found.None? {
        var e := IEntry(name, val, asConst, current);
        ok := PushStack(e);
        if ok {
          FindGlobalSnoc(live, e, name, current);
          forall other | other != name
            ensures FindGlobal(Live(), other, current) == FindGlobal(live, other, current)
          {
            FindGlobalSnoc(live, e, other, current);
          }
        }
        return;
      }
      var k := found.value;
      if stack[k].isConst {
        return false;
      }
      stack[k] := stack[k].(val := val, isConst := asConst);
      assert Live() == live[k := live[k].(val := val, isConst := asConst)];
      forall other
        ensures FindGlobal(Live(), other, current) == FindGlobal(live, other, current)
      {
        FindGlobalKeys(Live(), live, other, current);
      }
      return true;
    }
  }

  // ---------------------------------------------------------------- dynamic types

  /** The callbacks of a registered dynamic type, identified as a whole. */
  datatype DynType = DynType(callbacks: nat)

  /** `loaded_types` and `n_loaded_types`. */
  class TypeRegistry {
    var loaded: seq<DynType>

    ghost predicate Valid()
      reads this
    {
      |loaded| <= MAX_DYN_TYPES
    }

    constructor ()
      ensures Valid() && loaded == []
    {
      loaded := [];
    }

    /** `get_dynamic_type`: nothing for the static ids or unregistered ones. */
    function GetDynamicType(ty: nat): (r: Option<DynType>)
      reads this
      ensures r.Some? <==> N_STATIC_TYPES <= ty < N_STATIC_TYPES + |loaded|
    {
      if ty < N_STATIC_TYPES then None
      else if ty - N_STATIC_TYPES >= |loaded| then None
      else Some(loaded[ty - N_STATIC_TYPES])
    }

    /** `beryl_add_type`: the new type's id is `BERYL_N_STATIC_TYPES` plus its index; `TYPE_NULL` (0) once 8 are registered. */
    method AddType(t: DynType) returns (id: nat)
      requires Valid()
      modifies this
      ensures Valid()
      ensures id == 0 <==> |old(loaded)| == MAX_DYN_TYPES
      ensures id == 0 ==> loaded == old(loaded)
      ensures id != 0 ==> loaded == old(loaded) + [t] && id == N_STATIC_TYPES + |old(loaded)|
      ensures id != 0 ==> GetDynamicType(id) == Some(t)
      ensures forall ty :: ty != id ==> GetDynamicType(ty) == old(GetDynamicType(ty))
    {
      if |loaded| == MAX_DYN_TYPES || |loaded| == I_MAX_TYPES {
        return 0;
      }
      id := N_STATIC_TYPES + |loaded|;
      loaded := loaded + [t];
    }
  }

  /** `get_dynamic_type` inverts registration: the type at index `i` answers to id `10 + i`, and to no other id. */
  lemma DynamicTypeIds(r: TypeRegistry, ty: nat)
    ensures ty < N_STATIC_TYPES ==> r.GetDynamicType(ty).None?
    ensures forall i :: 0 <= i < |r.loaded| ==> r.GetDynamicType(N_STATIC_TYPES + i) == Some(r.loaded[i])
  {
  }

  // ---------------------------------------------------------------- errors and returns

  /** A stack-trace entry: a token or range of source text, or a function name. */
  datatype ITrace = TraceRange(src: nat, at: nat, srcLen: nat, errLen: nat) | TraceName(name: Bytes)

  /** The stack trace, the blamed arguments and the pending return value. */
  class ErrBuffers {
    const trace: array<ITrace>
    var nTrace: nat
    const errArgs: array<IVal>
    var nArgs: nat
    var returnVal: IVal

    ghost predicate Valid()
      reads this
    {
      trace.Length == STACK_TRACE_MAX && nTrace <= STACK_TRACE_MAX
      && errArgs.Length == MAX_ERR_ARGUMENTS && nArgs <= MAX_ERR_ARGUMENTS
    }

    constructor ()
      ensures Valid() && nTrace == 0 && nArgs == 0 && returnVal == INull
    {
      trace := new ITrace[STACK_TRACE_MAX](_ => TraceName([]));
      errArgs := new IVal[MAX_ERR_ARGUMENTS](_ => INull);
      nTrace, nArgs, returnVal := 0, 0, INull;
    }

    /** `blame_token`, `blame_range`, `blame_name`: recorded only while fewer than 16 are. */
    method Blame(e: ITrace)
      requires Valid()
      modifies this, trace
      ensures Valid() && nArgs == old(nArgs) && returnVal == old(returnVal)
      ensures old(nTrace) < STACK_TRACE_MAX ==> trace[..nTrace] == old(trace[..nTrace]) + [e]
      ensures old(nTrace) == STACK_TRACE_MAX ==> trace[..nTrace] == old(trace[..nTrace])
    {
      if nTrace < STACK_TRACE_MAX {
        trace[nTrace] := e;
        nTrace := nTrace + 1;
        assert trace[..nTrace] == old(trace[..nTrace]) + [e];
      }
    }

    /** `beryl_blame_arg`: recorded only while fewer than 4 are. */
    method BlameArg(v: IVal)
      requires Valid()
      modifies this, errArgs
      ensures Valid() && nTrace == old(nTrace) && returnVal == old(returnVal)
      ensures old(nArgs) < MAX_ERR_ARGUMENTS ==> errArgs[..nArgs] == old(errArgs[..nArgs]) + [v]
      ensures old(nArgs) == MAX_ERR_ARGUMENTS ==> errArgs[..nArgs] == old(errArgs[..nArgs])
    {
      if nArgs < MAX_ERR_ARGUMENTS {
        errArgs[nArgs] := v;
        nArgs := nArgs + 1;
        assert errArgs[..nArgs] == old(errArgs[..nArgs]) + [v];
      }
    }

    /** `clear_stack_trace`: releases the blamed arguments in order, nulls their slots and empties both buffers. */
    method ClearStackTrace() returns (released: seq<IVal>)
      requires Valid()
      modifies this, errArgs
      ensures Valid() && nTrace == 0 && nArgs == 0 && returnVal == old(returnVal)
      ensures released == old(errArgs[..nArgs])
      ensures forall i :: 0 <= i < old(nArgs) ==> errArgs[i] == INull
    {
      released := [];
      var i := 0;
      while i < nArgs
        invariant Valid() && nArgs == old(nArgs) && nTrace == old(nTrace) && returnVal == old(returnVal)
        invariant 0 <= i <= nArgs
        invariant released == old(errArgs[..i])
        invariant forall j :: 0 <= j < i ==> errArgs[j] == INull
        invariant forall j :: i <= j < errArgs.Length ==> errArgs[j] == old(errArgs[j])
      {
        released := released + [errArgs[i]];
        errArgs[i] := INull;
        i := i + 1;
      }
      nTrace := 0;
      nArgs := 0;
    }

    /** `beryl_set_return_val`: only the first value is kept until it is consumed. */
    method SetReturnVal(v: IVal)
      requires Valid()
      modifies this
      ensures Valid() && nTrace == old(nTrace) && nArgs == old(nArgs)
      ensures returnVal == if old(returnVal).INull? then v else old(returnVal)
    {
      if returnVal.INull? {
        returnVal := v;
      }
    }

    /** The end of `parse_eval_all_exprs`: a return marker is replaced by the pending value, which is consumed. */
    method TakeReturn(res: IVal) returns (r: IVal)
      requires Valid()
      modifies this
      ensures Valid() && nTrace == old(nTrace) && nArgs == old(nArgs)
      ensures res.IReturnMarker? ==> r == old(returnVal) && returnVal == INull
      ensures !res.IReturnMarker? ==> r == res && returnVal == old(returnVal)
    {
      r := res;
      if res.IReturnMarker? {
        r := returnVal;
        returnVal := INull;
      }
    }
  }
}
