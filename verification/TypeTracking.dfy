/** What unification records about the symbols and affine maps it meets, and what can be read off the record. */
module TypeTracking {
  import opened TypeUnify

  datatype Side = Lhs | Rhs

  function Reverse(side: Side): Side { if side.Lhs? then Rhs else Lhs }

  /** One thing recorded: a symbol or an affine map, the side it is on, and what stands opposite. */
  datatype Event = OfSymbol(side: Side, name: Sym, attr: Attr) | OfAffine(side: Side, affine: nat, value: int)

  /** A type variable stands for its symbol. */
  function AsAttr(t: Ty): Attr { if t.TVar? then SymA(t.name) else TyA(t) }

  function Normal(x: Attr): Attr { if x.TyA? then AsAttr(x.ty) else x }

  function SymbolEvents(side: Side, name: Sym, x: Attr): seq<Event> {
    var attr := Normal(x);
    (if attr.SymA? then [OfSymbol(Reverse(side), attr.name, SymA(name))] else []) + [OfSymbol(side, name, attr)]
  }

  /** What unifying two types records, in order, up to where it fails. */
  function TypeEvents(r: Rules, a: Ty, b: Ty): seq<Event>
    decreases a
  {
    if a == b || r.known(a, b) then []
    else if a.TVar? then [OfSymbol(Lhs, a.name, AsAttr(b))]
    else if b.TVar? then [OfSymbol(Rhs, b.name, AsAttr(a))]
    else match (a, b) {
      case (Struct(n, xs), Struct(m, ys)) => if r.prefix + m == n && |xs| == |ys|
        then ParamListEvents(r, xs, ys, false, |xs|) else []
      case (Arr(s, xs), Arr(t, ys)) =>
        TypeEvents(r, s, t) + if TypesUnify(r, s, t) && |xs| == |ys| then ParamListEvents(r, xs, ys, true, |xs|) else []
      case (Pod(ss), Pod(ts)) => if |ss| == |ts| then RecordEvents(r, ss, ts, |ss|) else []
      case (Fun(ps, ss), Fun(qs, ts)) =>
        (if |ps| == |qs| then ListEvents(r, ps, qs, |ps|) else []) +
        if (|ps| == |qs| && forall i :: 0 <= i < |ps| ==> TypesUnify(r, ps[i], qs[i])) && |ss| == |ts|
          then ListEvents(r, ss, ts, |ss|) else []
      case _ => []
    }
  }

  /** Of the first `n` pairs, stopping after the first that does not unify. */
  function ListEvents(r: Rules, ss: seq<Ty>, ts: seq<Ty>, n: nat): seq<Event>
    requires n <= |ss| == |ts|
    decreases ss, n
  {
    if n == 0 then []
    else ListEvents(r, ss, ts, n - 1) + if forall i :: 0 <= i < n - 1 ==> TypesUnify(r, ss[i], ts[i])
      then TypeEvents(r, ss[n - 1], ts[n - 1]) else []
  }

  function RecordEvents(r: Rules, ss: seq<Record>, ts: seq<Record>, n: nat): seq<Event>
    requires n <= |ss| == |ts|
    decreases ss, n
  {
    if n == 0 then []
    else RecordEvents(r, ss, ts, n - 1) +
         if (forall i :: 0 <= i < n - 1 ==> ss[i].name == ts[i].name && TypesUnify(r, ss[i].ty, ts[i].ty)) &&
           ss[n - 1].name == ts[n - 1].name
         then TypeEvents(r, ss[n - 1].ty, ts[n - 1].ty) else []
  }

  function ParamListEvents(r: Rules, xs: seq<Attr>, ys: seq<Attr>, dim: bool, n: nat): seq<Event>
    requires n <= |xs| == |ys|
    decreases xs, n
  {
    if n == 0 then []
    else ParamListEvents(r, xs, ys, dim, n - 1) + if forall i :: 0 <= i < n - 1 ==> ParamsUnify(r, xs[i], ys[i], dim)
      then ParamEvents(r, xs[n - 1], ys[n - 1], dim) else []
  }

  function ParamEvents(r: Rules, x: Attr, y: Attr, dim: bool): seq<Event>
    decreases x
  {
    if x == y then []
    else if x.AffA? && y.IntA? && !IsDynamic(y) then [OfAffine(Lhs, x.affine, y.value)]
    else if y.AffA? && x.IntA? && !IsDynamic(x) then [OfAffine(Rhs, y.affine, x.value)]
    else if x.SymA? then SymbolEvents(Lhs, x.name, y)
    else if y.SymA? then SymbolEvents(Rhs, y.name, x)
    else if x.TyA? && y.TyA? then TypeEvents(r, x.ty, y.ty)
    else []
  }

  // ---------- nothing recorded for the right-hand side ----------

  predicate OnlyLhs(events: seq<Event>) { forall i :: 0 <= i < |events| ==> events[i].side.Lhs? }

  lemma OnlyLhsConcat(a: seq<Event>, b: seq<Event>)
    ensures OnlyLhs(a + b) <==> OnlyLhs(a) && OnlyLhs(b)
  {
    if OnlyLhs(a + b) {
      assert forall i :: 0 <= i < |a| ==> (a + b)[i] == a[i];
      assert forall i :: 0 <= i < |b| ==> (a + b)[|a| + i] == b[i];
    }
  }

  lemma SymbolOnlyLhs(side: Side, name: Sym, x: Attr)
    ensures OnlyLhs(SymbolEvents(side, name, x)) <==> side.Lhs? && !IsSymbolic(x)
  {
    var attr := Normal(x);
    if attr.SymA? {
      assert SymbolEvents(side, name, x)[0].side == Reverse(side) && SymbolEvents(side, name, x)[1].side == side;
    } else {
      assert SymbolEvents(side, name, x)[0].side == side;
    }
  }

  /** Unifying without recording anything for the right-hand side is being at least as concrete on the right. */
  lemma {:induction false} OnlyLhsRefines(known: (Ty, Ty) -> bool, a: Ty, b: Ty)
    ensures TypesUnify(Rules([], known), a, b) && OnlyLhs(TypeEvents(Rules([], known), a, b)) <==> Refines(known, a, b)
    decreases a, 1
  {
    hide TypesUnify, TypeEvents, Refines, OnlyLhs;
    if a == b || known(a, b) || !SameShape(a, b) {
      ShapesRefine(known, a, b);
    } else {
      match a {
        case Struct(_, _) => StructRefines(known, a, b);
        case Arr(_, _) => ArrRefines(known, a, b);
        case Pod(_) => PodRefines(known, a, b);
        case Fun(_, _) => FunRefines(known, a, b);
      }
    }
  }

  /** Two types of one compound form with as many parts. */
  predicate SameShape(a: Ty, b: Ty) {
    match (a, b)
    case (Struct(n, xs), Struct(m, ys)) => n == m && |xs| == |ys|
    case (Arr(_, xs), Arr(_, ys)) => |xs| == |ys|
    case (Pod(ss), Pod(ts)) => |ss| == |ts|
    case (Fun(ps, ss), Fun(qs, ts)) => |ps| == |qs| && |ss| == |ts|
    case _ => false
  }

  lemma {:induction false} ShapesRefine(known: (Ty, Ty) -> bool, a: Ty, b: Ty)
    requires a == b || known(a, b) || !SameShape(a, b)
    ensures TypesUnify(Rules([], known), a, b) && OnlyLhs(TypeEvents(Rules([], known), a, b)) <==> Refines(known, a, b)
  {
    var r := Rules([], known);
    assert forall m: Sym :: r.prefix + m == m;
    if a != b && !known(a, b) && (a.TVar? || b.TVar?) {
      assert TypeEvents(r, a, b)[0].side == if a.TVar? then Lhs else Rhs;
    }
  }

  lemma {:induction false} StructRefines(known: (Ty, Ty) -> bool, a: Ty, b: Ty)
    requires a.Struct? && SameShape(a, b) && a != b && !known(a, b)
    ensures TypesUnify(Rules([], known), a, b) && OnlyLhs(TypeEvents(Rules([], known), a, b)) <==> Refines(known, a, b)
    decreases a, 0
  {
    hide ParamListEvents, OnlyLhs, ParamsUnify, ParamRefines;
    assert Rules([], known).prefix + b.name == b.name;
    ParamListRefines(known, a.params, b.params, false, |a.params|);
  }

  lemma {:induction false} PodRefines(known: (Ty, Ty) -> bool, a: Ty, b: Ty)
    requires a.Pod? && SameShape(a, b) && a != b && !known(a, b)
    ensures TypesUnify(Rules([], known), a, b) && OnlyLhs(TypeEvents(Rules([], known), a, b)) <==> Refines(known, a, b)
    decreases a, 0
  {
    hide RecordEvents, OnlyLhs;
    RecordsRefine(known, a.records, b.records, |a.records|);
  }

  lemma {:induction false} ArrRefines(known: (Ty, Ty) -> bool, a: Ty, b: Ty)
    requires a.Arr? && SameShape(a, b) && a != b && !known(a, b)
    ensures TypesUnify(Rules([], known), a, b) && OnlyLhs(TypeEvents(Rules([], known), a, b)) <==> Refines(known, a, b)
    decreases a, 0
  {
    hide ParamListEvents, OnlyLhs, ParamsUnify, ParamRefines;
    var r := Rules([], known);
    OnlyLhsRefines(known, a.elem, b.elem);
    ParamListRefines(known, a.dims, b.dims, true, |a.dims|);
    OnlyLhsConcat(TypeEvents(r, a.elem, b.elem), ParamListEvents(r, a.dims, b.dims, true, |a.dims|));
  }

  lemma {:induction false} FunRefines(known: (Ty, Ty) -> bool, a: Ty, b: Ty)
    requires a.Fun? && SameShape(a, b) && a != b && !known(a, b)
    ensures TypesUnify(Rules([], known), a, b) && OnlyLhs(TypeEvents(Rules([], known), a, b)) <==> Refines(known, a, b)
    decreases a, 0
  {
    hide ListEvents, OnlyLhs;
    var r := Rules([], known);
    ListRefines(known, a.inputs, b.inputs, |a.inputs|);
    ListRefines(known, a.results, b.results, |a.results|);
    OnlyLhsConcat(ListEvents(r, a.inputs, b.inputs, |a.inputs|), ListEvents(r, a.results, b.results, |a.results|));
  }

  lemma {:induction false} ListRefines(known: (Ty, Ty) -> bool, ss: seq<Ty>, ts: seq<Ty>, n: nat)
    requires n <= |ss| == |ts|
    ensures var r := Rules([], known);
            (forall i :: 0 <= i < n ==> TypesUnify(r, ss[i], ts[i])) && OnlyLhs(ListEvents(r, ss, ts, n)) <==>
              (forall i :: 0 <= i < n ==> Refines(known, ss[i], ts[i]))
    decreases ss, n
  {
    hide TypesUnify, Refines, TypeEvents;
    if n == 0 {
    } else {
      var r := Rules([], known);
      ListRefines(known, ss, ts, n - 1);
      OnlyLhsRefines(known, ss[n - 1], ts[n - 1]);
      OnlyLhsConcat(ListEvents(r, ss, ts, n - 1), TypeEvents(r, ss[n - 1], ts[n - 1]));
    }
  }

  lemma {:induction false} RecordsRefine(known: (Ty, Ty) -> bool, ss: seq<Record>, ts: seq<Record>, n: nat)
    requires n <= |ss| == |ts|
    ensures var r := Rules([], known);
            (forall i :: 0 <= i < n ==> ss[i].name == ts[i].name && TypesUnify(r, ss[i].ty, ts[i].ty)) &&
              OnlyLhs(RecordEvents(r, ss, ts, n)) <==>
            (forall i :: 0 <= i < n ==> ss[i].name == ts[i].name && Refines(known, ss[i].ty, ts[i].ty))
    decreases ss, n
  {
    hide TypesUnify, Refines, TypeEvents;
    if n == 0 {
    } else {
      var r := Rules([], known);
      RecordsRefine(known, ss, ts, n - 1);
      OnlyLhsRefines(known, ss[n - 1].ty, ts[n - 1].ty);
      OnlyLhsConcat(RecordEvents(r, ss, ts, n - 1), TypeEvents(r, ss[n - 1].ty, ts[n - 1].ty));
    }
  }

  lemma {:induction false} ParamListRefines(known: (Ty, Ty) -> bool, xs: seq<Attr>, ys: seq<Attr>, dim: bool, n: nat)
    requires n <= |xs| == |ys|
    ensures var r := Rules([], known);
            (forall i :: 0 <= i < n ==> ParamsUnify(r, xs[i], ys[i], dim)) &&
              OnlyLhs(ParamListEvents(r, xs, ys, dim, n)) <==>
            (forall i :: 0 <= i < n ==> ParamRefines(known, xs[i], ys[i], dim))
    decreases xs, n
  {
    hide ParamsUnify, ParamRefines, ParamEvents;
    if n == 0 {
    } else {
      var r := Rules([], known);
      ParamListRefines(known, xs, ys, dim, n - 1);
      ParamOnlyLhs(known, xs[n - 1], ys[n - 1], dim);
      OnlyLhsConcat(ParamListEvents(r, xs, ys, dim, n - 1), ParamEvents(r, xs[n - 1], ys[n - 1], dim));
    }
  }

  lemma {:induction false} ParamOnlyLhs(known: (Ty, Ty) -> bool, x: Attr, y: Attr, dim: bool)
    ensures ParamsUnify(Rules([], known), x, y, dim) && OnlyLhs(ParamEvents(Rules([], known), x, y, dim)) <==>
        ParamRefines(known, x, y, dim)
    decreases x
  {
    var r := Rules([], known);
    if x == y {
    } else if x.AffA? && y.IntA? && !IsDynamic(y) {
    } else if y.AffA? && x.IntA? && !IsDynamic(x) {
      assert ParamEvents(r, x, y, dim)[0].side.Rhs?;
    } else if x.SymA? {
      SymbolOnlyLhs(Lhs, x.name, y);
    } else if y.SymA? {
      SymbolOnlyLhs(Rhs, y.name, x);
    } else if x.TyA? && y.TyA? {
      OnlyLhsRefines(known, x.ty, y.ty);
    }
  }
}
