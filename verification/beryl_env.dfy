/**
 * The variable environment of the newer runtime (src/beryl.c): the static
 * variable stack with its scopes, the hashed globals lookup table, the
 * argument stack for temporaries, and the error bookkeeping buffers.
 *
 * Retaining and releasing values is not tracked here; the operations that
 * release values return them, in the order the source releases them.
 */
module BerylEnv {
  import opened CTypes
  import opened BerylValues
  import opened Probe
  import BerylTable

  /** `STATIC_STACK_SIZE` */
  const STACK_SIZE: nat := 256
  /** `GLOBALS_LOOKUP_TABLE_SIZE` */
  const GLOBALS_SIZE: nat := 256
  /** `EXPR_ARG_STACK_SIZE` */
  const ARG_STACK_SIZE: nat := 128
  /** `ERR_STACK_TRACE_SIZE` */
  const TRACE_SIZE: nat := 16
  /** `MAX_BLAMED_ARGS` */
  const MAX_BLAMED: nat := 8

  /**
   * A `scope_namespace`: the source range a variable was declared in, as
   * pointers; a `start` of 0 is the top-level namespace (`NULL`).
   */
  datatype Namespace = Namespace(start: nat, end: nat)

  const TopLevel: Namespace := Namespace(0, 0)

  /** `namespace_overlap`: one range lies inside the other. */
  predicate Overlap(a: Namespace, b: Namespace): (r: bool)
    ensures a == b ==> r
    ensures r && a.start <= a.end && a.end - a.start == b.end - b.start ==> a == b
  {
    (a.start >= b.start && a.end <= b.end) || (b.start >= a.start && b.end <= a.end)
  }

  /** A `stack_entry`. */
  datatype Entry = Entry(name: Bytes, val: Val, isConst: bool, ns: Namespace)

  /** What `get_global` finds: a stack entry or a globals table entry. */
  datatype VarRef = OnStack(index: nat) | InGlobals(index: nat)

  /** A sequence in reverse order. */
  function Reverse<T>(s: seq<T>): (r: seq<T>)
    ensures |r| == |s|
    ensures forall i :: 0 <= i < |s| ==> r[i] == s[|s| - 1 - i]
  {
    if s == [] then [] else Reverse(s[1..]) + [s[0]]
  }

  /** The values of some entries. */
  function Vals(s: seq<Entry>): (r: seq<Val>)
    ensures |r| == |s|
    ensures forall i :: 0 <= i < |s| ==> r[i] == s[i].val
  {
    seq(|s|, i requires 0 <= i < |s| => s[i].val)
  }

  /** Entries visible to `get_global` from namespace `cur`. */
  predicate Visible(e: Entry, cur: Namespace)
  {
    e.ns.start == 0 || Overlap(e.ns, cur)
  }

  /** The names in the globals table, empty slots as `None`. */
  function Names(g: seq<Option<Entry>>): (names: seq<Option<Bytes>>)
    ensures |names| == |g|
    ensures forall i :: 0 <= i < |g| ==> names[i] == (if g[i].None? then None else Some(g[i].value.name))
  {
    seq(|g|, i requires 0 <= i < |g| => if g[i].None? then None else Some(g[i].value.name))
  }

  /** The home slot of a name in the globals table: the string hash modulo 256. */
  function GlobalHome(): Bytes -> nat
  {
    name => BerylTable.StrHash(name) % GLOBALS_SIZE
  }

  /** The slot `index_globals` returns. */
  function GlobalSlot(g: seq<Option<Entry>>, name: Bytes): (r: Option<nat>)
    requires |g| == GLOBALS_SIZE
    ensures r.Some? ==> r.value < |g| && (g[r.value].None? || g[r.value].value.name == name)
  {
    Find(Names(g), name, GlobalHome()(name))
  }

  /** The global named `name`, if defined. */
  function GlobalLookup(g: seq<Option<Entry>>, name: Bytes): Option<Entry>
    requires |g| == GLOBALS_SIZE
  {
    var r := GlobalSlot(g, name);
    if r.Some? && g[r.value].Some? then g[r.value] else None
  }

  ghost predicate GlobalsWellFormed(g: seq<Option<Entry>>)
  {
    |g| == GLOBALS_SIZE && Unique(Names(g)) && Chained(Names(g), GlobalHome())
  }

  lemma GlobalHomeIn()
    ensures HomesIn(GLOBALS_SIZE, GlobalHome())
  {
  }

  /** A defined global is what lookup returns for its name. */
  lemma GlobalLookupAt(g: seq<Option<Entry>>, j: nat)
    requires GlobalsWellFormed(g) && j < |g| && g[j].Some?
    ensures GlobalLookup(g, g[j].value.name) == g[j]
  {
    FindPresent(Names(g), GlobalHome(), j);
  }

  /** Slot `p` not naming `name` (before or after), other slots equal: lookups of `name` agree. */
  lemma GlobalLookupOther(g: seq<Option<Entry>>, g': seq<Option<Entry>>, p: nat, name: Bytes)
    requires GlobalsWellFormed(g) && GlobalsWellFormed(g') && p < GLOBALS_SIZE
    requires forall j :: 0 <= j < GLOBALS_SIZE && j != p ==> g'[j] == g[j]
    requires Names(g)[p] != Some(name) && Names(g')[p] != Some(name)
    ensures GlobalLookup(g', name) == GlobalLookup(g, name)
  {
    if j :| 0 <= j < GLOBALS_SIZE && g[j].Some? && g[j].value.name == name {
      GlobalLookupAt(g, j);
      GlobalLookupAt(g', j);
    } else {
      assert forall j :: 0 <= j < GLOBALS_SIZE ==> Names(g)[j] != Some(name);
      assert forall j :: 0 <= j < GLOBALS_SIZE ==> Names(g')[j] != Some(name);
    }
  }

  /** The variable stack, the current namespace and the globals lookup table. */
  class Env {
    /** `static_stack`: entries below `top` are in use, those from `base` up are the innermost scope. */
    const stack: array<Entry>
    var top: nat
    var base: nat
    var current: Namespace
    /** `globals_lookup`: a slot with a `NULL` name is `None`. */
    const globals: array<Option<Entry>>

    ghost predicate Valid()
      reads this, globals
    {
      stack.Length == STACK_SIZE && base <= top <= STACK_SIZE
      && GlobalsWellFormed(globals[..])
    }

    constructor ()
      ensures Valid() && top == 0 && base == 0 && current == TopLevel
      ensures forall name :: GlobalLookup(globals[..], name) == None
    {
      stack := new Entry[STACK_SIZE](_ => Entry([], VNull, false, TopLevel));
      globals := new Option<Entry>[GLOBALS_SIZE](_ => None);
      top, base, current := 0, 0, TopLevel;
      new;
      GlobalHomeIn();
      assert Names(globals[..]) == seq<Option<Bytes>>(GLOBALS_SIZE, _ => None);
      EmptyChained(GLOBALS_SIZE, GlobalHome());
    }

    /** The entries in use. */
    function Live(): seq<Entry>
      reads this, stack
      requires top <= stack.Length
    {
      stack[..top]
    }

    /** `push_stack`: fails once every entry is in use. */
    method PushStack(e: Entry) returns (ok: bool)
      requires Valid()
      modifies this, stack
      ensures Valid() && base == old(base) && current == old(current)
      ensures ok <==> old(top) < STACK_SIZE
      ensures ok ==> Live() == old(Live()) + [e]
      ensures !ok ==> Live() == old(Live())
    {
      if top < STACK_SIZE {
        stack[top] := e;
        top := top + 1;
        assert stack[..top] == old(stack[..top]) + [e];
        return true;
      }
      return false;
    }

    /** `beryl_bind_name`: a top-level-namespace entry on the stack. */
    method BindName(name: Bytes, val: Val, isConst: bool) returns (ok: bool)
      requires Valid()
      modifies this, stack
      ensures Valid() && base == old(base) && current == old(current)
      ensures ok <==> old(top) < STACK_SIZE
      ensures ok ==> Live() == old(Live()) + [Entry(name, val, isConst, TopLevel)]
      ensures !ok ==> Live() == old(Live())
    {
      ok := PushStack(Entry(name, val, isConst, TopLevel));
    }

    /** `enter_scope`: the new scope starts at the top; the old base is returned for `leave_scope`. */
    method EnterScope() returns (prev: nat)
      requires Valid()
      modifies this
      ensures Valid() && top == old(top) && current == old(current)
      ensures prev == old(base) && base == top
    {
      prev := base;
      base := top;
    }

    /**
     * `leave_scope`: the innermost scope's entries are released, newest
     * first, then the stack is cut back to them and the previous base restored.
     */
    method LeaveScope(prev: nat) returns (released: seq<Val>)
      requires Valid() && prev <= base
      modifies this
      ensures Valid() && current == old(current)
      ensures released == Reverse(Vals(old(stack[base..top])))
      ensures top == old(base) && base == prev
      ensures Live() == old(stack[..base])
    {
      released := [];
      var p := top;
      while p > base
        invariant base <= p <= top
        invariant |released| == top - p
        invariant forall i :: 0 <= i < |released| ==> released[i] == stack[top - 1 - i].val
      {
        p := p - 1;
        released := released + [stack[p].val];
      }
      ghost var scope := stack[base..top];
      assert released == Reverse(Vals(scope)) by {
        forall i | 0 <= i < |released|
          ensures released[i] == Reverse(Vals(scope))[i]
        {
          assert scope[|scope| - 1 - i] == stack[top - 1 - i];
        }
      }
      top := base;
      base := prev;
    }

    /** `get_local`: the newest entry of the innermost scope with this name. */
    method GetLocal(name: Bytes) returns (r: Option<nat>)
      requires Valid()
      ensures r.Some? ==> base <= r.value < top && stack[r.value].name == name
      ensures r.Some? ==> forall j :: r.value < j < top ==> stack[j].name != name
      ensures r.None? ==> forall j :: base <= j < top ==> stack[j].name != name
    {
      var v := top;
      while v > base
        invariant base <= v <= top
        invariant forall j :: v <= j < top ==> stack[j].name != name
      {
        v := v - 1;
        var eq := CmpLenStrs(stack[v].name, name);
        if eq {
          return Some(v);
        }
      }
      return None;
    }

    /** `index_globals`: the slot holding `name`, or the first empty one on its probe walk. */
    method IndexGlobals(name: Bytes) returns (r: Option<nat>)
      requires Valid()
      ensures r == GlobalSlot(globals[..], name)
    {
      var hash := HashName(name);
      var index := hash % GLOBALS_SIZE;
      var first := SearchGlobals(name, index, GLOBALS_SIZE);
      var second := None;
      if first.None? {
        second := SearchGlobals(name, 0, index);
      }
      TwoScans(Stops(Names(globals[..]), name), index, first, second);
      return if first.Some? then first else second;
    }

    /** One run of the probe walk of `index_globals`, over the slots `from` up to `until`. */
    method SearchGlobals(name: Bytes, from: nat, until: nat) returns (r: Option<nat>)
      requires until <= globals.Length
      ensures r.Some? ==> from <= r.value < until && Stops(Names(globals[..]), name)[r.value]
      ensures r.Some? ==> forall i :: from <= i < r.value ==> !Stops(Names(globals[..]), name)[i]
      ensures r.None? ==> forall i :: from <= i < until ==> !Stops(Names(globals[..]), name)[i]
    {
      var i := from;
      while i < until
        invariant from <= i || until <= from
        invariant forall j :: from <= j < i && j < until ==> !Stops(Names(globals[..]), name)[j]
      {
        if globals[i].None? {
          return Some(i);
        }
        var eq := CmpLenStrs(globals[i].value.name, name);
        if eq {
          return Some(i);
        }
        i := i + 1;
      }
      return None;
    }

    /**
     * `get_global`: the newest stack entry with this name that is top-level
     * or whose namespace overlaps the current one; failing that, the defined
     * global of that name.
     */
    method GetGlobal(name: Bytes) returns (r: Option<VarRef>)
      requires Valid()
      ensures r.Some? && r.value.OnStack? ==>
        var i := r.value.index;
        i < top && stack[i].name == name && Visible(stack[i], current)
        && forall j :: i < j < top ==> !(stack[j].name == name && Visible(stack[j], current))
      ensures (r.None? || r.value.InGlobals?) ==>
        forall j :: 0 <= j < top ==> !(stack[j].name == name && Visible(stack[j], current))
      ensures r.Some? && r.value.InGlobals? ==>
        r.value.index < GLOBALS_SIZE && GlobalLookup(globals[..], name) == globals[r.value.index]
        && globals[r.value.index].Some?
      ensures r.None? ==> GlobalLookup(globals[..], name) == None
    {
      var v := top;
      while v > 0
        invariant 0 <= v <= top
        invariant forall j :: v <= j < top ==> !(stack[j].name == name && Visible(stack[j], current))
      {
        v := v - 1;
        if stack[v].ns.start == 0 || Overlap(stack[v].ns, current) {
          var eq := CmpLenStrs(stack[v].name, name);
          if eq {
            return Some(OnStack(v));
          }
        }
      }
      var g := IndexGlobals(name);
      if g.None? || globals[g.value].None? {
        return None;
      }
      return Some(InGlobals(g.value));
    }

    /**
     * `beryl_set_var`: defines a new global in the current namespace, refuses
     * to change a constant, and otherwise replaces the value and constness.
     * Fails when the table has neither the name nor an empty slot.
     */
    method SetVar(name: Bytes, val: Val, asConst: bool) returns (ok: bool)
      requires Valid()
      modifies globals
      ensures Valid()
      ensures var before := old(GlobalLookup(globals[..], name));
        && (!ok <==> old(GlobalSlot(globals[..], name)).None? || (before.Some? && before.value.isConst))
        && (ok && before.None? ==> GlobalLookup(globals[..], name) == Some(Entry(name, val, asConst, current)))
        && (ok && before.Some? ==>
              GlobalLookup(globals[..], name) == Some(before.value.(val := val, isConst := asConst)))
        && (!ok ==> globals[..] == old(globals[..]))
      ensures forall other :: other != name ==> GlobalLookup(globals[..], other) == old(GlobalLookup(globals[..], other))
    {
      ghost var g := globals[..];
      var entry := IndexGlobals(name);
      if entry.None? {
        return false;
      }
      var p := entry.value;
      if globals[p].None? {
        GlobalHomeIn();
        InsertChained(Names(g), GlobalHome(), name);
        globals[p] := Some(Entry(name, val, asConst, current));
        assert Names(globals[..]) == Names(g)[p := Some(name)];
      } else {
        GlobalLookupAt(g, p);
        if globals[p].value.isConst {
          return false;
        }
        globals[p] := Some(globals[p].value.(val := val, isConst := asConst));
        assert Names(globals[..]) == Names(g);
      }
      GlobalLookupAt(globals[..], p);
      forall other | other != name
        ensures GlobalLookup(globals[..], other) == GlobalLookup(g, other)
      {
        GlobalLookupOther(g, globals[..], p, other);
      }
      return true;
    }
  }

  /** The name hash of `index_globals`, with its loop. */
  method HashName(name: Bytes) returns (h: nat)
    ensures h == BerylTable.StrHash(name)
  {
    h := BerylTable.HashVal(VStr(name));
  }

  /** `namespace_overlap` does not depend on the order of its arguments. */
  lemma OverlapSymmetric(a: Namespace, b: Namespace)
    ensures Overlap(a, b) == Overlap(b, a)
  {
  }

  /** The argument stack holding temporaries while expressions are evaluated. */
  class ArgStack {
    const args: array<Val>
    var top: nat

    ghost predicate Valid()
      reads this
    {
      args.Length == ARG_STACK_SIZE && top <= ARG_STACK_SIZE
    }

    function Live(): seq<Val>
      reads this, args
      requires Valid()
    {
      args[..top]
    }

    constructor ()
      ensures Valid() && Live() == []
    {
      args := new Val[ARG_STACK_SIZE](_ => VNull);
      top := 0;
    }

    /** `push_arg`: fails when all 128 slots are in use. */
    method PushArg(v: Val) returns (ok: bool)
      requires Valid()
      modifies this, args
      ensures Valid()
      ensures ok <==> old(top) < ARG_STACK_SIZE
      ensures ok ==> Live() == old(Live()) + [v]
      ensures !ok ==> Live() == old(Live())
    {
      if top < ARG_STACK_SIZE {
        args[top] := v;
        top := top + 1;
        assert args[..top] == old(args[..top]) + [v];
        return true;
      }
      return false;
    }

    /** `save_arg_state` */
    function SaveArgState(): (state: nat)
      reads this, args
      ensures Valid() ==> state == |Live()|
    {
      top
    }

    /**
     * `restore_arg_state`: cuts the stack back to a saved top, releasing the
     * dropped values newest first when asked to.
     */
    method RestoreArgState(state: nat, release: bool) returns (released: seq<Val>)
      requires Valid() && state <= top
      modifies this
      ensures Valid()
      ensures Live() == old(Live())[..state]
      ensures released == if release then Reverse(old(args[state..top])) else []
    {
      released := [];
      if release {
        var p := top;
        while p > state
          invariant state <= p <= top
          invariant released == Reverse(args[p..top])
        {
          p := p - 1;
          assert args[p..top] == [args[p]] + args[p + 1..top];
          released := released + [args[p]];
        }
      }
      top := state;
    }
  }

  /** A stack-trace entry: a source range to point at, or a name. */
  datatype TraceEntry = BlameRange(src: nat, srcEnd: nat, at: nat, len: nat) | BlameName(name: Bytes)

  /** The error stack trace and the blamed arguments. */
  class ErrState {
    const trace: array<TraceEntry>
    var nTrace: nat
    const blamed: array<Val>
    var nBlamed: nat

    ghost predicate Valid()
      reads this
    {
      trace.Length == TRACE_SIZE && nTrace <= TRACE_SIZE
      && blamed.Length == MAX_BLAMED && nBlamed <= MAX_BLAMED
      && trace != blamed as object
    }

    constructor ()
      ensures Valid() && nTrace == 0 && nBlamed == 0
    {
      trace := new TraceEntry[TRACE_SIZE](_ => BlameName([]));
      blamed := new Val[MAX_BLAMED](_ => VNull);
      nTrace, nBlamed := 0, 0;
    }

    /** `push_stack_trace`: fails when 16 entries are already recorded. */
    method PushStackTrace(e: TraceEntry) returns (ok: bool)
      requires Valid()
      modifies this, trace
      ensures Valid() && nBlamed == old(nBlamed) && blamed[..nBlamed] == old(blamed[..nBlamed])
      ensures ok <==> old(nTrace) < TRACE_SIZE
      ensures ok ==> trace[..nTrace] == old(trace[..nTrace]) + [e]
      ensures !ok ==> trace[..nTrace] == old(trace[..nTrace])
    {
      if nTrace == TRACE_SIZE {
        return false;
      }
      trace[nTrace] := e;
      nTrace := nTrace + 1;
      assert trace[..nTrace] == old(trace[..nTrace]) + [e];
      return true;
    }

    /** `beryl_blame_arg`: records the value unless 8 are already recorded. */
    method BlameArg(v: Val)
      requires Valid()
      modifies this, blamed
      ensures Valid() && nTrace == old(nTrace) && trace[..nTrace] == old(trace[..nTrace])
      ensures old(nBlamed) < MAX_BLAMED ==> blamed[..nBlamed] == old(blamed[..nBlamed]) + [v]
      ensures old(nBlamed) == MAX_BLAMED ==> blamed[..nBlamed] == old(blamed[..nBlamed])
    {
      if nBlamed == MAX_BLAMED {
        return;
      }
      blamed[nBlamed] := v;
      nBlamed := nBlamed + 1;
      assert blamed[..nBlamed] == old(blamed[..nBlamed]) + [v];
    }

    /** `clear_err`: releases the blamed values in order and empties both buffers. */
    method ClearErr() returns (released: seq<Val>)
      requires Valid()
      modifies this
      ensures Valid() && nTrace == 0 && nBlamed == 0
      ensures released == old(blamed[..nBlamed])
    {
      released := [];
      var i := 0;
      while i < nBlamed
        invariant 0 <= i <= nBlamed
        invariant released == blamed[..i]
      {
        released := released + [blamed[i]];
        i := i + 1;
      }
      nBlamed := 0;
      nTrace := 0;
    }
  }
}
