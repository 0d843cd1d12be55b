/**
 * The value printer `print_i_val` of src/io.c, over the values of the
 * newer runtime: what it writes for each kind of value, as a byte string.
 *
 * Numbers are written by a formatting function given as the parameter
 * `num` (the `%lli` / `%f` choice is floating-point formatting, not part
 * of this model).  A table is printed from its slots in index order,
 * skipping empty ones, as `beryl_iter_table` visits them.
 */
module IoPrint {
  import opened CTypes
  import opened BerylValues
  import CommonLib

  const SPACE: byte := 32
  const OPEN: byte := 40
  const CLOSE: byte := 41

  /** The parts separated by single spaces. */
  function Joined(parts: seq<Bytes>): Bytes
  {
    if |parts| == 0 then []
    else if |parts| == 1 then parts[0]
    else Joined(parts[..|parts| - 1]) + [SPACE] + parts[|parts| - 1]
  }

  /** The parts that are present, in order. */
  function Present(parts: seq<Option<Bytes>>): seq<Bytes>
  {
    if parts == [] then []
    else Present(parts[..|parts| - 1]) + (if parts[|parts| - 1].Some? then [parts[|parts| - 1].value] else [])
  }

  /** `%llu`: an unsigned number in decimal, `0` for zero. */
  function Decimal(t: nat): (r: Bytes)
    ensures |r| > 0
  {
    if t == 0 then [CommonLib.ZERO] else
      CommonLib.DigitsShape(t);
      CommonLib.Digits(t)
  }

  /** The text `print_i_val` writes for `v`. */
  function Render(v: Val, num: real -> Bytes): Bytes
    decreases v
  {
    match v
    case VNull => Lit("Null")
    case VNumber(n) => num(n)
    case VBool(b) => if b then Lit("True") else Lit("False")
    case VErr(m) => Lit("Error: ") + m
    case VStr(s) => s
    case VTable(slots) =>
      Lit("{")
      + Joined(Present(seq(|slots|, i requires 0 <= i < |slots| =>
          if slots[i].key == VNull then None else Some(PairText(slots[i], num)))))
      + Lit("}")
    case VArray(items) =>
      Lit("(") + Joined(seq(|items|, i requires 0 <= i < |items| => Render(items[i], num))) + Lit(")")
    case VFn(_) => Lit("Function")
    case VExtFn(_) => Lit("Function")
    case VTag(t) => Lit("Tag (") + Decimal(t) + Lit(")")
    case VObject(name) => Lit("Object (") + name + Lit(")")
  }

  /** How a table pair is written: `(key val)`. */
  function PairText(p: Slot, num: real -> Bytes): Bytes
    decreases p
  {
    Lit("(") + Render(p.key, num) + Lit(" ") + Render(p.val, num) + Lit(")")
  }

  // ---------------------------------------------------------------- the printing loops

  /**
   * `print_i_val`: the recursive printer, with the array loop that writes
   * a space after every item but the last and the table loop that writes
   * a space before every pair but the first.
   */
  method PrintIVal(v: Val, num: real -> Bytes) returns (out: Bytes)
    ensures out == Render(v, num)
    decreases v, 2
  {
    match v
    case VArray(_) =>
      out := PrintArray(v, num);
    case VTable(_) =>
      out := PrintTable(v, num);
    case _ =>
      out := Render(v, num);
  }

  /** The array case of `print_i_val`. */
  method PrintArray(v: Val, num: real -> Bytes) returns (out: Bytes)
    requires v.VArray?
    ensures out == Render(v, num)
    decreases v, 1
  {
    var items := v.items;
    ghost var texts := seq(|items|, i requires 0 <= i < |items| => Render(items[i], num));
    out := Lit("(");
    var i := 0;
    while i < |items|
      invariant 0 <= i <= |items|
      invariant out == Lit("(") + Joined(texts[..i]) + (if 0 < i < |items| then [SPACE] else [])
    {
      var text := PrintIVal(items[i], num);
      ArrayStep(texts, i);
      out := out + text;
      if i != |items| - 1 {
        out := out + [SPACE];
      }
      i := i + 1;
    }
    assert texts[..i] == texts;
    out := out + Lit(")");
  }

  /** The table case of `print_i_val`, with its `first` flag. */
  method PrintTable(v: Val, num: real -> Bytes) returns (out: Bytes)
    requires v.VTable?
    ensures out == Render(v, num)
    decreases v, 1
  {
    var slots := v.slots;
    ghost var parts := seq(|slots|, i requires 0 <= i < |slots| =>
      if slots[i].key == VNull then None else Some(PairText(slots[i], num)));
    out := Lit("{");
    var first := true;
    var i := 0;
    while i < |slots|
      invariant 0 <= i <= |slots|
      invariant first <==> Present(parts[..i]) == []
      invariant out == Lit("{") + Joined(Present(parts[..i]))
    {
      TableStep(parts, i);
      if slots[i].key != VNull {
        if !first {
          out := out + [SPACE];
        }
        var pair := PrintPair(slots[i], num);
        out := out + pair;
        first := false;
      }
      i := i + 1;
    }
    assert parts[..i] == parts;
    out := out + Lit("}");
  }

  /** One item of the array loop: the item, then a space unless it is the last. */
  lemma ArrayStep(texts: seq<Bytes>, i: nat)
    requires i < |texts|
    ensures Lit("(") + Joined(texts[..i + 1]) + (if 0 < i + 1 < |texts| then [SPACE] else [])
         == Lit("(") + Joined(texts[..i]) + (if 0 < i < |texts| then [SPACE] else []) + texts[i]
            + (if i != |texts| - 1 then [SPACE] else [])
  {
    assert texts[..i + 1] == texts[..i] + [texts[i]];
    JoinedSnoc(texts[..i], texts[i]);
  }

  /** One slot of the table loop: an empty slot adds nothing, a full one a space unless it is the first, then its pair. */
  lemma TableStep(parts: seq<Option<Bytes>>, i: nat)
    requires i < |parts|
    ensures parts[i].None? ==> Present(parts[..i + 1]) == Present(parts[..i])
    ensures parts[i].Some? ==>
      && Present(parts[..i + 1]) == Present(parts[..i]) + [parts[i].value]
      && Joined(Present(parts[..i + 1]))
         == Joined(Present(parts[..i])) + (if Present(parts[..i]) == [] then [] else [SPACE]) + parts[i].value
  {
    assert parts[..i + 1][..i] == parts[..i];
    if parts[i].Some? {
      JoinedSnoc(Present(parts[..i]), parts[i].value);
    }
  }

  /** One pair of the table loop: `(`, the key, a space, the value, `)`. */
  method PrintPair(p: Slot, num: real -> Bytes) returns (out: Bytes)
    ensures out == PairText(p, num)
    decreases p
  {
    var key := PrintIVal(p.key, num);
    var val := PrintIVal(p.val, num);
    out := Lit("(") + key + Lit(" ") + val + Lit(")");
  }

  // ---------------------------------------------------------------- properties

  /** The fixed words: null, the booleans, functions, and the empty array. */
  lemma RenderWords(num: real -> Bytes, src: nat, callback: nat)
    ensures Render(VNull, num) == Lit("Null")
    ensures Render(VBool(true), num) == Lit("True") && Render(VBool(false), num) == Lit("False")
    ensures Render(VFn(src), num) == Render(VExtFn(callback), num) == Lit("Function")
    ensures Render(VArray([]), num) == Lit("()")
    ensures Render(VTable([]), num) == Lit("{}")
  {
    assert Lit("(") + [] + Lit(")") == Lit("()");
    assert Lit("{") + [] + Lit("}") == Lit("{}");
  }

  /** One more part at the end. */
  lemma JoinedSnoc(parts: seq<Bytes>, x: Bytes)
    ensures Joined(parts + [x]) == if parts == [] then x else Joined(parts) + [SPACE] + x
  {
    assert (parts + [x])[..|parts|] == parts;
  }

  /** Joining keeps every part and adds one space between neighbours. */
  lemma {:induction false} JoinedLength(parts: seq<Bytes>)
    ensures |parts| > 0 ==> |Joined(parts)| == TotalLen(parts) + |parts| - 1
    ensures |parts| == 0 ==> Joined(parts) == []
  {
    if |parts| > 1 {
      JoinedLength(parts[..|parts| - 1]);
    }
  }

  /** The summed lengths of the parts. */
  function TotalLen(parts: seq<Bytes>): nat
  {
    if parts == [] then 0 else TotalLen(parts[..|parts| - 1]) + |parts[|parts| - 1]|
  }

  /** Joining two non-empty lists of parts puts one space between their joins. */
  lemma {:induction false} JoinedAppend(xs: seq<Bytes>, ys: seq<Bytes>)
    requires |xs| > 0 && |ys| > 0
    ensures Joined(xs + ys) == Joined(xs) + [SPACE] + Joined(ys)
    decreases |ys|
  {
    var zs := xs + ys;
    if |ys| == 1 {
      assert zs[..|zs| - 1] == xs;
    } else {
      var init := ys[..|ys| - 1];
      assert zs[..|zs| - 1] == xs + init;
      JoinedAppend(xs, init);
    }
  }

  /** Opening minus closing parentheses. */
  function Net(s: Bytes): int
  {
    if s == [] then 0
    else Net(s[..|s| - 1]) + (if s[|s| - 1] == OPEN then 1 else if s[|s| - 1] == CLOSE then -1 else 0)
  }

  lemma {:induction false} NetAppend(a: Bytes, b: Bytes)
    ensures Net(a + b) == Net(a) + Net(b)
    decreases |b|
  {
    if b == [] {
      assert a + b == a;
    } else {
      assert (a + b)[..|a + b| - 1] == a + b[..|b| - 1];
      NetAppend(a, b[..|b| - 1]);
    }
  }

  /** No parenthesis in a text. */
  predicate ParenFree(s: Bytes)
  {
    forall j :: 0 <= j < |s| ==> s[j] != OPEN && s[j] != CLOSE
  }

  lemma {:induction false} ParenFreeNet(s: Bytes)
    requires ParenFree(s)
    ensures Net(s) == 0
  {
    if s != [] {
      ParenFreeNet(s[..|s| - 1]);
    }
  }

  /** Every string, error message and class name inside `v` is free of parentheses. */
  predicate TextsParenFree(v: Val)
    decreases v
  {
    match v
    case VStr(s) => ParenFree(s)
    case VErr(m) => ParenFree(m)
    case VObject(name) => ParenFree(name)
    case VArray(items) => forall i :: 0 <= i < |items| ==> TextsParenFree(items[i])
    case VTable(slots) => forall i :: 0 <= i < |slots| ==> TextsParenFree(slots[i].key) && TextsParenFree(slots[i].val)
    case _ => true
  }

  lemma {:induction false} JoinedNet(parts: seq<Bytes>)
    requires forall i :: 0 <= i < |parts| ==> Net(parts[i]) == 0
    ensures Net(Joined(parts)) == 0
  {
    if |parts| > 1 {
      var init := parts[..|parts| - 1];
      JoinedNet(init);
      NetAppend(Joined(init), [SPACE]);
      NetAppend(Joined(init) + [SPACE], parts[|parts| - 1]);
      assert Net([SPACE]) == Net([]) + 0;
    }
  }

  lemma {:induction false} PresentNet(parts: seq<Option<Bytes>>)
    requires forall i :: 0 <= i < |parts| && parts[i].Some? ==> Net(parts[i].value) == 0
    ensures forall j :: 0 <= j < |Present(parts)| ==> Net(Present(parts)[j]) == 0
  {
    if parts != [] {
      PresentNet(parts[..|parts| - 1]);
    }
  }

  /** A literal word without parentheses adds nothing to the count. */
  lemma LitNet(w: string)
    requires forall j :: 0 <= j < |w| ==> w[j] != '(' && w[j] != ')' && w[j] as int < 256
    ensures Net(Lit(w)) == 0
  {
    ParenFreeNet(Lit(w));
  }

  /** The fixed words hold no parentheses. */
  lemma WordsBalanced()
    ensures Net(Lit("Null")) == Net(Lit("True")) == Net(Lit("False")) == 0
    ensures Net(Lit("Function")) == Net(Lit("Error: ")) == 0
  {
    LitNet("Null");
    LitNet("True");
    LitNet("False");
    LitNet("Function");
    LitNet("Error: ");
  }

  /** The words around a tag number and a class name open one parenthesis; `)` closes it. */
  lemma OpenerNet()
    ensures Net(Lit("Tag (")) == Net(Lit("Object (")) == 1 && Net(Lit(")")) == -1
  {
    assert Lit("Tag (") == Lit("Tag ") + [OPEN];
    assert Lit("Object (") == Lit("Object ") + [OPEN];
    assert Lit(")") == [] + [CLOSE];
    LitNet("Tag ");
    LitNet("Object ");
    NetAppend(Lit("Tag "), [OPEN]);
    NetAppend(Lit("Object "), [OPEN]);
  }

  /** Three texts one after the other. */
  lemma Net3(a: Bytes, m: Bytes, b: Bytes)
    ensures Net(a + m + b) == Net(a) + Net(m) + Net(b)
  {
    NetAppend(a, m);
    NetAppend(a + m, b);
  }

  /**
   * Parentheses in the printed text are balanced when the numbers and the
   * texts inside the value hold none: arrays and table pairs open and
   * close one each.
   */
  lemma {:induction false} RenderBalanced(v: Val, num: real -> Bytes)
    requires TextsParenFree(v)
    requires forall n :: ParenFree(num(n))
    ensures Net(Render(v, num)) == 0
    decreases v, 2
  {
    match v
    case VNull => WordsBalanced();
    case VNumber(n) => ParenFreeNet(num(n));
    case VBool(b) => WordsBalanced();
    case VErr(m) => WordsBalanced(); ParenFreeNet(m); NetAppend(Lit("Error: "), m);
    case VStr(s) => ParenFreeNet(s);
    case VFn(_) => WordsBalanced();
    case VExtFn(_) => WordsBalanced();
    case VTag(t) =>
      var d := Decimal(t);
      if t != 0 {
        CommonLib.DigitsShape(t);
      }
      assert ParenFree(d);
      ParenFreeNet(d);
      OpenerNet();
      Net3(Lit("Tag ("), d, Lit(")"));
    case VObject(name) =>
      ParenFreeNet(name);
      OpenerNet();
      Net3(Lit("Object ("), name, Lit(")"));
    case VArray(_) => ArrayBalanced(v, num);
    case VTable(_) => TableBalanced(v, num);
  }

  lemma {:induction false} ArrayBalanced(v: Val, num: real -> Bytes)
    requires v.VArray? && TextsParenFree(v)
    requires forall n :: ParenFree(num(n))
    ensures Net(Render(v, num)) == 0
    decreases v, 1
  {
    var items := v.items;
    var texts := seq(|items|, i requires 0 <= i < |items| => Render(items[i], num));
    forall i | 0 <= i < |items|
      ensures Net(texts[i]) == 0
    {
      RenderBalanced(items[i], num);
    }
    JoinedNet(texts);
    Net3(Lit("("), Joined(texts), Lit(")"));
  }

  lemma {:induction false} PairBalanced(p: Slot, num: real -> Bytes)
    requires TextsParenFree(p.key) && TextsParenFree(p.val)
    requires forall n :: ParenFree(num(n))
    ensures Net(PairText(p, num)) == 0
    decreases p
  {
    var k, w := Render(p.key, num), Render(p.val, num);
    RenderBalanced(p.key, num);
    RenderBalanced(p.val, num);
    ParenFreeNet(Lit(" "));
    Net3(Lit("("), k, Lit(" "));
    Net3(Lit("(") + k + Lit(" "), w, Lit(")"));
  }

  lemma {:induction false} TableBalanced(v: Val, num: real -> Bytes)
    requires v.VTable? && TextsParenFree(v)
    requires forall n :: ParenFree(num(n))
    ensures Net(Render(v, num)) == 0
    decreases v, 1
  {
    var slots := v.slots;
    var parts := seq(|slots|, i requires 0 <= i < |slots| =>
      if slots[i].key == VNull then None else Some(PairText(slots[i], num)));
    forall i | 0 <= i < |slots| && parts[i].Some?
      ensures Net(parts[i].value) == 0
    {
      PairBalanced(slots[i], num);
    }
    PresentNet(parts);
    JoinedNet(Present(parts));
    ParenFreeNet(Lit("{"));
    ParenFreeNet(Lit("}"));
    Net3(Lit("{"), Joined(Present(parts)), Lit("}"));
  }
}
