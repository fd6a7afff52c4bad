/** The types and attributes of a module, and the references to structs the code finds in them: the type of an operand,
    a result or a block argument, and every type attribute at any depth of an attribute. */
module StructReferences {
  type S = nat

  datatype Option<T> = None | Some(value: T)

  datatype Type =
    | Plain
    | StructOf(name: S, params: seq<Attr>)
    | ArrayOf(elem: Type, dims: seq<Attr>)
    | PodOf(records: seq<Type>)
    | FunctionOf(inputs: seq<Type>, results: seq<Type>)

  datatype Attr = Literal | OfType(ty: Type) | ListOf(items: seq<Attr>)

  /** An operation, with the struct it is in, if it is in one. */
  datatype Op = Op(parent: Option<S>, operands: seq<Type>, results: seq<Type>, blockArgs: seq<Type>, attrs: seq<Attr>)

  // ---------- what the code finds ----------

  /** The struct a type is of; what is inside the type is not looked at. */
  function Named(ty: Type): seq<S> { if ty.StructOf? then [ty.name] else [] }

  function NamedAll(tys: seq<Type>): seq<S> {
    if tys == [] then [] else NamedAll(tys[..|tys| - 1]) + Named(tys[|tys| - 1])
  }

  /** Walking an attribute, in post-order: each type attribute in it names the struct its type is of. */
  function Walked(a: Attr): seq<S> {
    match a
    case Literal => []
    case OfType(ty) => WalkedType(ty) + Named(ty)
    case ListOf(items) => WalkedAll(items, |items|)
  }

  function WalkedType(ty: Type): seq<S> {
    match ty
    case Plain => []
    case StructOf(_, params) => WalkedAll(params, |params|)
    case ArrayOf(elem, dims) => WalkedType(elem) + WalkedAll(dims, |dims|)
    case PodOf(records) => WalkedTypes(records, |records|)
    case FunctionOf(inputs, results) => WalkedTypes(inputs, |inputs|) + WalkedTypes(results, |results|)
  }

  function WalkedAll(items: seq<Attr>, n: nat): seq<S>
    requires n <= |items|
  {
    if n == 0 then [] else WalkedAll(items, n - 1) + Walked(items[n - 1])
  }

  function WalkedTypes(tys: seq<Type>, n: nat): seq<S>
    requires n <= |tys|
  {
    if n == 0 then [] else WalkedTypes(tys, n - 1) + WalkedType(tys[n - 1])
  }

  function FoundIn(op: Op): seq<S> {
    NamedAll(op.operands) + NamedAll(op.results) + NamedAll(op.blockArgs) + WalkedAll(op.attrs, |op.attrs|)
  }

  function Pairs(a: S, found: seq<S>): seq<(S, S)> { seq(|found|, i requires 0 <= i < |found| => (a, found[i])) }

  /** What is collected: an operation outside all structs refers to nothing. */
  function RefsOf(ops: seq<Op>): seq<(S, S)> {
    if ops == [] then []
    else
      var op := ops[|ops| - 1];
      RefsOf(ops[..|ops| - 1]) + if op.parent.Some? then Pairs(op.parent.value, FoundIn(op)) else []
  }

  // ---------- what that means ----------

  /** `x` is the attribute `a` or somewhere in it. */
  predicate Holds(a: Attr, x: Attr) {
    || a == x
    || match a
       case Literal => false
       case OfType(ty) => TypeHolds(ty, x)
       case ListOf(items) => exists i :: 0 <= i < |items| && Holds(items[i], x)
  }

  predicate TypeHolds(ty: Type, x: Attr) {
    match ty
    case Plain => false
    case StructOf(_, params) => exists i :: 0 <= i < |params| && Holds(params[i], x)
    case ArrayOf(elem, dims) => TypeHolds(elem, x) || exists i :: 0 <= i < |dims| && Holds(dims[i], x)
    case PodOf(records) => exists i :: 0 <= i < |records| && TypeHolds(records[i], x)
    case FunctionOf(inputs, results) =>
      || (exists i :: 0 <= i < |inputs| && TypeHolds(inputs[i], x))
      || (exists i :: 0 <= i < |results| && TypeHolds(results[i], x))
  }

  ghost predicate HoldsStruct(a: Attr, s: S) { exists params: seq<Attr> :: Holds(a, OfType(StructOf(s, params))) }

  ghost predicate TypeHoldsStruct(ty: Type, s: S) {
    exists params: seq<Attr> :: TypeHolds(ty, OfType(StructOf(s, params)))
  }

  /** The walk names exactly the structs that a type attribute anywhere in it is of. */
  lemma {:induction false} WalkedIff(a: Attr, s: S)
    ensures s in Walked(a) <==> HoldsStruct(a, s)
    decreases a
  {
    match a {
      case Literal =>
      case OfType(ty) =>
        WalkedTypeIff(ty, s);
        if ty.StructOf? && ty.name == s { assert Holds(a, OfType(StructOf(s, ty.params))); }
        if HoldsStruct(a, s) {
          var params: seq<Attr> :| Holds(a, OfType(StructOf(s, params)));
          assert a == OfType(StructOf(s, params)) || TypeHolds(ty, OfType(StructOf(s, params)));
        }
        if TypeHoldsStruct(ty, s) {
          var params: seq<Attr> :| TypeHolds(ty, OfType(StructOf(s, params)));
          assert Holds(a, OfType(StructOf(s, params)));
        }
      case ListOf(items) =>
        WalkedAllIff(items, |items|, s);
        if exists i :: 0 <= i < |items| && HoldsStruct(items[i], s) {
          var i :| 0 <= i < |items| && HoldsStruct(items[i], s);
          var params: seq<Attr> :| Holds(items[i], OfType(StructOf(s, params)));
          assert Holds(a, OfType(StructOf(s, params)));
        }
        if HoldsStruct(a, s) {
          var params: seq<Attr> :| Holds(a, OfType(StructOf(s, params)));
          var i :| 0 <= i < |items| && Holds(items[i], OfType(StructOf(s, params)));
          assert HoldsStruct(items[i], s);
        }
    }
  }

  lemma {:induction false} WalkedTypeIff(ty: Type, s: S)
    ensures s in WalkedType(ty) <==> TypeHoldsStruct(ty, s)
    decreases ty
  {
    match ty {
      case Plain =>
      case StructOf(_, params) =>
        WalkedAllIff(params, |params|, s);
        PartsHold(ty, s);
      case ArrayOf(elem, dims) =>
        WalkedTypeIff(elem, s);
        WalkedAllIff(dims, |dims|, s);
        PartsHold(ty, s);
      case PodOf(records) =>
        WalkedTypesIff(records, |records|, s);
        PartsHold(ty, s);
      case FunctionOf(inputs, results) =>
        WalkedTypesIff(inputs, |inputs|, s);
        WalkedTypesIff(results, |results|, s);
        PartsHold(ty, s);
    }
  }

  ghost predicate SomeHolds(items: seq<Attr>, n: nat, s: S)
    requires n <= |items|
  {
    exists i :: 0 <= i < n && HoldsStruct(items[i], s)
  }

  ghost predicate SomeTypeHolds(tys: seq<Type>, n: nat, s: S)
    requires n <= |tys|
  {
    exists i :: 0 <= i < n && TypeHoldsStruct(tys[i], s)
  }

  ghost predicate PartHolds(ty: Type, s: S) {
    match ty
    case Plain => false
    case StructOf(_, params) => SomeHolds(params, |params|, s)
    case ArrayOf(elem, dims) => TypeHoldsStruct(elem, s) || SomeHolds(dims, |dims|, s)
    case PodOf(records) => SomeTypeHolds(records, |records|, s)
    case FunctionOf(inputs, results) =>
      SomeTypeHolds(inputs, |inputs|, s) || SomeTypeHolds(results, |results|, s)
  }

  /** A type holds what one of its parts holds. */
  lemma PartsHold(ty: Type, s: S)
    ensures TypeHoldsStruct(ty, s) <==> PartHolds(ty, s)
  {
    forall params: seq<Attr> | TypeHolds(ty, OfType(StructOf(s, params))) ensures PartHolds(ty, s) {
      assert forall a: Attr :: Holds(a, OfType(StructOf(s, params))) ==> HoldsStruct(a, s);
      assert forall t: Type :: TypeHolds(t, OfType(StructOf(s, params))) ==> TypeHoldsStruct(t, s);
    }
    match ty {
      case Plain =>
      case StructOf(_, ps) => PartAttr(ty, ps, s);
      case ArrayOf(elem, dims) => PartAttr(ty, dims, s);
      case PodOf(records) => PartType(ty, records, s);
      case FunctionOf(inputs, results) => PartType(ty, inputs, s); PartType(ty, results, s);
    }
  }

  lemma PartAttr(ty: Type, items: seq<Attr>, s: S)
    requires (ty.StructOf? && ty.params == items) || (ty.ArrayOf? && ty.dims == items)
    ensures SomeHolds(items, |items|, s) ==> TypeHoldsStruct(ty, s)
    ensures ty.ArrayOf? && TypeHoldsStruct(ty.elem, s) ==> TypeHoldsStruct(ty, s)
  {
    if SomeHolds(items, |items|, s) {
      var i :| 0 <= i < |items| && HoldsStruct(items[i], s);
      var params: seq<Attr> :| Holds(items[i], OfType(StructOf(s, params)));
      assert TypeHolds(ty, OfType(StructOf(s, params)));
    }
    if ty.ArrayOf? && TypeHoldsStruct(ty.elem, s) {
      var params: seq<Attr> :| TypeHolds(ty.elem, OfType(StructOf(s, params)));
      assert TypeHolds(ty, OfType(StructOf(s, params)));
    }
  }

  lemma PartType(ty: Type, tys: seq<Type>, s: S)
    requires (ty.PodOf? && ty.records == tys) || (ty.FunctionOf? && (ty.inputs == tys || ty.results == tys))
    ensures SomeTypeHolds(tys, |tys|, s) ==> TypeHoldsStruct(ty, s)
  {
    if SomeTypeHolds(tys, |tys|, s) {
      var i :| 0 <= i < |tys| && TypeHoldsStruct(tys[i], s);
      var params: seq<Attr> :| TypeHolds(tys[i], OfType(StructOf(s, params)));
      assert TypeHolds(ty, OfType(StructOf(s, params)));
    }
  }

  lemma {:induction false} WalkedAllIff(items: seq<Attr>, n: nat, s: S)
    requires n <= |items|
    ensures s in WalkedAll(items, n) <==> SomeHolds(items, n, s)
    decreases items, n
  {
    if n == 0 {
    } else {
      WalkedAllIff(items, n - 1, s);
      WalkedIff(items[n - 1], s);
    }
  }

  lemma {:induction false} WalkedTypesIff(tys: seq<Type>, n: nat, s: S)
    requires n <= |tys|
    ensures s in WalkedTypes(tys, n) <==> SomeTypeHolds(tys, n, s)
    decreases tys, n
  {
    if n == 0 {
    } else {
      WalkedTypesIff(tys, n - 1, s);
      WalkedTypeIff(tys[n - 1], s);
    }
  }

  lemma {:induction false} NamedIff(tys: seq<Type>, s: S)
    ensures s in NamedAll(tys) <==> exists i :: 0 <= i < |tys| && tys[i].StructOf? && tys[i].name == s
  {
    if tys == [] {
    } else {
      var n := |tys| - 1;
      NamedIff(tys[..n], s);
      assert forall i :: 0 <= i < n ==> tys[..n][i] == tys[i];
    }
  }

  /** What is found in an operation: the structs its values are of, and those a type attribute on it is of. */
  lemma FoundIff(op: Op, s: S)
    ensures s in FoundIn(op) <==>
            || (exists i :: 0 <= i < |op.operands| && op.operands[i].StructOf? && op.operands[i].name == s)
            || (exists i :: 0 <= i < |op.results| && op.results[i].StructOf? && op.results[i].name == s)
            || (exists i :: 0 <= i < |op.blockArgs| && op.blockArgs[i].StructOf? && op.blockArgs[i].name == s)
            || (exists i :: 0 <= i < |op.attrs| && HoldsStruct(op.attrs[i], s))
  {
    NamedIff(op.operands, s);
    NamedIff(op.results, s);
    NamedIff(op.blockArgs, s);
    WalkedAllIff(op.attrs, |op.attrs|, s);
  }

  // ---------- what refers to a struct at all ----------

  /** A type that mentions a struct, wherever in it. */
  predicate Mentions(ty: Type, s: S) {
    match ty
    case Plain => false
    case StructOf(name, params) => name == s || exists i :: 0 <= i < |params| && AttrMentions(params[i], s)
    case ArrayOf(elem, dims) => Mentions(elem, s) || exists i :: 0 <= i < |dims| && AttrMentions(dims[i], s)
    case PodOf(records) => exists i :: 0 <= i < |records| && Mentions(records[i], s)
    case FunctionOf(inputs, results) =>
      || (exists i :: 0 <= i < |inputs| && Mentions(inputs[i], s))
      || (exists i :: 0 <= i < |results| && Mentions(results[i], s))
  }

  predicate AttrMentions(a: Attr, s: S) {
    match a
    case Literal => false
    case OfType(ty) => Mentions(ty, s)
    case ListOf(items) => exists i :: 0 <= i < |items| && AttrMentions(items[i], s)
  }

  predicate RefersTo(op: Op, s: S) {
    || (exists i :: 0 <= i < |op.operands| && Mentions(op.operands[i], s))
    || (exists i :: 0 <= i < |op.results| && Mentions(op.results[i], s))
    || (exists i :: 0 <= i < |op.blockArgs| && Mentions(op.blockArgs[i], s))
    || (exists i :: 0 <= i < |op.attrs| && AttrMentions(op.attrs[i], s))
  }

  // ---------- the references one by one ----------

  lemma PairsConcat(a: S, f: seq<S>, g: seq<S>)
    ensures Pairs(a, f + g) == Pairs(a, f) + Pairs(a, g)
  {}

  lemma NamedNext(tys: seq<Type>, i: nat)
    requires i < |tys|
    ensures NamedAll(tys[..i + 1]) == NamedAll(tys[..i]) + Named(tys[i])
  {
    assert tys[..i + 1][..i] == tys[..i];
  }

  /** What one part names, all name. */
  lemma NamedPart(tys: seq<Type>, i: nat)
    requires i < |tys|
    ensures forall s :: s in Named(tys[i]) ==> s in NamedAll(tys)
  {
    forall s | s in Named(tys[i]) ensures s in NamedAll(tys) { NamedIff(tys, s); }
  }

  lemma {:induction false} WalkedPart(items: seq<Attr>, i: nat)
    requires i < |items|
    ensures forall s :: s in Walked(items[i]) ==> s in WalkedAll(items, |items|)
  {
    forall s | s in Walked(items[i]) ensures s in WalkedAll(items, |items|) {
      WalkedIff(items[i], s);
      WalkedAllIff(items, |items|, s);
    }
  }

  lemma {:induction false} WalkedTypesPart(tys: seq<Type>, i: nat)
    requires i < |tys|
    ensures forall s :: s in WalkedType(tys[i]) ==> s in WalkedTypes(tys, |tys|)
  {
    forall s | s in WalkedType(tys[i]) ensures s in WalkedTypes(tys, |tys|) {
      WalkedTypeIff(tys[i], s);
      WalkedTypesIff(tys, |tys|, s);
    }
  }

  lemma RefsNext(ops: seq<Op>, i: nat)
    requires i < |ops|
    ensures RefsOf(ops[..i + 1]) == RefsOf(ops[..i]) + if ops[i].parent.Some?
        then Pairs(ops[i].parent.value, FoundIn(ops[i])) else []
  {
    assert ops[..i + 1][..i] == ops[..i];
  }

  /** The references are those found in the operations inside structs. */
  lemma {:induction false} RefsIff(ops: seq<Op>, a: S, b: S)
    ensures (a, b) in RefsOf(ops) <==> exists i :: 0 <= i < |ops| && ops[i].parent == Some(a) && b in FoundIn(ops[i])
  {
    hide FoundIn;
    if ops == [] {
    } else {
      var n := |ops| - 1;
      RefsIff(ops[..n], a, b);
      assert forall i :: 0 <= i < n ==> ops[..n][i] == ops[i];
      if ops[n].parent == Some(a) && b in FoundIn(ops[n]) {
        var j :| 0 <= j < |FoundIn(ops[n])| && FoundIn(ops[n])[j] == b;
        assert Pairs(a, FoundIn(ops[n]))[j] == (a, b);
      }
    }
  }
}
