/** What stands opposite a symbol or an affine map when two types are laid on each other, place by place, and that this
    is what unification records. */
module TypePlaces {
  import opened TypeUnify
  import opened TypeTracking

  /** A step from a type to one of its parts. */
  datatype Step = Param(param: nat) | Elem | Dim(dim: nat) | Rec(rec: nat) | In(input: nat) | Out(result: nat)

  datatype Place = Nowhere | There(attr: Attr)

  function Child(x: Attr, step: Step): Place {
    if !x.TyA? then Nowhere
    else match (x.ty, step) {
      case (Struct(_, params), Param(i)) => if i < |params| then There(params[i]) else Nowhere
      case (Arr(elem, _), Elem) => There(TyA(elem))
      case (Arr(_, dims), Dim(i)) => if i < |dims| then There(dims[i]) else Nowhere
      case (Pod(records), Rec(i)) => if i < |records| then There(TyA(records[i].ty)) else Nowhere
      case (Fun(inputs, _), In(i)) => if i < |inputs| then There(TyA(inputs[i])) else Nowhere
      case (Fun(_, results), Out(i)) => if i < |results| then There(TyA(results[i])) else Nowhere
      case _ => Nowhere
    }
  }

  /** What is at the end of a path, if there is something. */
  function Part(x: Attr, path: seq<Step>): Place
    decreases path
  {
    if path == [] then There(x)
    else match Child(x, path[0])
      case Nowhere => Nowhere
      case There(y) => Part(y, path[1..])
  }

  predicate IsVariable(x: Attr) { x.TyA? && x.ty.TVar? }

  /** `x` and `y` at one place mean the record: the symbol or type variable on one side stands opposite the other side,
      a type variable there as its symbol; an affine map stands opposite a known integer. Of two type variables only the
      left one is recorded. */
  predicate Means(x: Attr, y: Attr, e: Event) {
    x != y &&
    match e
    case OfSymbol(Lhs, name, attr) => Normal(x) == SymA(name) && attr == Normal(y)
    case OfSymbol(Rhs, name, attr) =>
      Normal(y) == SymA(name) && attr == Normal(x) && !(IsVariable(x) && IsVariable(y))
    case OfAffine(Lhs, affine, value) => x == AffA(affine) && y == IntA(value) && !IsDynamic(y)
    case OfAffine(Rhs, affine, value) => y == AffA(affine) && x == IntA(value) && !IsDynamic(x)
  }

  /** Some place of the two means the record. */
  ghost predicate Stands(x: Attr, y: Attr, e: Event) {
    exists path :: StandsAt(x, y, path, e)
  }

  predicate StandsAt(x: Attr, y: Attr, path: seq<Step>, e: Event) {
    Part(x, path).There? && Part(y, path).There? && Means(Part(x, path).attr, Part(y, path).attr, e)
  }

  ghost predicate StandsBehind(x: Attr, y: Attr, step: Step, e: Event) {
    Child(x, step).There? && Child(y, step).There? && Stands(Child(x, step).attr, Child(y, step).attr, e)
  }

  /** A place is here or behind a step. */
  lemma Unfold(x: Attr, y: Attr, e: Event)
    ensures Stands(x, y, e) <==> Means(x, y, e) || exists step :: StandsBehind(x, y, step, e)
  {
    if Means(x, y, e) { assert StandsAt(x, y, [], e); }
    if Stands(x, y, e) && !Means(x, y, e) {
      var path :| StandsAt(x, y, path, e);
      assert StandsAt(Child(x, path[0]).attr, Child(y, path[0]).attr, path[1..], e);
      assert StandsBehind(x, y, path[0], e);
    }
    if step :| StandsBehind(x, y, step, e) {
      var path :| StandsAt(Child(x, step).attr, Child(y, step).attr, path, e);
      assert ([step] + path)[1..] == path;
      assert StandsAt(x, y, [step] + path, e);
    }
  }

  lemma NothingOnEqual(x: Attr, e: Event)
    ensures !Stands(x, x, e)
  {}

  /** Without a common step, only the pair itself. */
  lemma OnlyHere(x: Attr, y: Attr, e: Event)
    requires !x.TyA? || !y.TyA? || x.ty.TVar? || y.ty.TVar?
    ensures Stands(x, y, e) <==> Means(x, y, e)
  {
    Unfold(x, y, e);
  }

  lemma InConcat(s: seq<Event>, t: seq<Event>, e: Event)
    ensures e in s + t <==> e in s || e in t
  {}

  // ---------- what is recorded is what stands opposite ----------

  ghost predicate Plain(r: Rules) { forall a, b :: !r.known(a, b) }

  lemma {:induction false} TypePlaced(r: Rules, a: Ty, b: Ty, e: Event)
    requires Plain(r) && TypesUnify(r, a, b)
    ensures e in TypeEvents(r, a, b) <==> Stands(TyA(a), TyA(b), e)
    decreases a, 1
  {
    var x, y := TyA(a), TyA(b);
    if a == b {
      NothingOnEqual(x, e);
    } else if a.TVar? || b.TVar? {
      OnlyHere(x, y, e);
    } else {
      Unfold(x, y, e);
      hide Stands, TypesUnify, ParamListEvents, RecordEvents, ListEvents, ParamsUnify;
      match a {
        case Struct(_, _) => StructPlaced(r, a, b, e);
        case Arr(_, _) => ArrPlaced(r, a, b, e);
        case Pod(_) => PodPlaced(r, a, b, e);
        case Fun(_, _) => FunPlaced(r, a, b, e);
        case _ =>
      }
    }
  }

  lemma {:induction false} StructPlaced(r: Rules, a: Ty, b: Ty, e: Event)
    requires Plain(r) && a.Struct? && TypesUnify(r, a, b) && a != b && !b.TVar?
    ensures e in TypeEvents(r, a, b) <==> exists step :: StandsBehind(TyA(a), TyA(b), step, e)
    decreases a, 0
  {
    hide Stands, ParamListEvents, ParamsUnify;
    var n := |a.params|;
    ParamsPlaced(r, a.params, b.params, false, n, e);
    if i :| 0 <= i < n && Stands(a.params[i], b.params[i], e) { assert StandsBehind(TyA(a), TyA(b), Param(i), e); }
    if step :| StandsBehind(TyA(a), TyA(b), step, e) { assert Stands(a.params[step.param], b.params[step.param], e); }
  }

  lemma {:induction false} ArrPlaced(r: Rules, a: Ty, b: Ty, e: Event)
    requires Plain(r) && a.Arr? && TypesUnify(r, a, b) && a != b && !b.TVar?
    ensures e in TypeEvents(r, a, b) <==> exists step :: StandsBehind(TyA(a), TyA(b), step, e)
    decreases a, 0
  {
    hide Stands, ParamListEvents, ParamsUnify;
    var n := |a.dims|;
    TypePlaced(r, a.elem, b.elem, e);
    ParamsPlaced(r, a.dims, b.dims, true, n, e);
    InConcat(TypeEvents(r, a.elem, b.elem), ParamListEvents(r, a.dims, b.dims, true, n), e);
    if Stands(TyA(a.elem), TyA(b.elem), e) { assert StandsBehind(TyA(a), TyA(b), Elem, e); }
    if i :| 0 <= i < n && Stands(a.dims[i], b.dims[i], e) { assert StandsBehind(TyA(a), TyA(b), Dim(i), e); }
    if step :| StandsBehind(TyA(a), TyA(b), step, e) {
      if step.Dim? { assert Stands(a.dims[step.dim], b.dims[step.dim], e); }
    }
  }

  lemma {:induction false} PodPlaced(r: Rules, a: Ty, b: Ty, e: Event)
    requires Plain(r) && a.Pod? && TypesUnify(r, a, b) && a != b && !b.TVar?
    ensures e in TypeEvents(r, a, b) <==> exists step :: StandsBehind(TyA(a), TyA(b), step, e)
    decreases a, 0
  {
    hide Stands, RecordEvents;
    var n := |a.records|;
    RecordsPlaced(r, a.records, b.records, n, e);
    if i :| 0 <= i < n && Stands(TyA(a.records[i].ty), TyA(b.records[i].ty), e) {
      assert StandsBehind(TyA(a), TyA(b), Rec(i), e);
    }
    if step :| StandsBehind(TyA(a), TyA(b), step, e) {
      assert Stands(TyA(a.records[step.rec].ty), TyA(b.records[step.rec].ty), e);
    }
  }

  lemma {:induction false} FunPlaced(r: Rules, a: Ty, b: Ty, e: Event)
    requires Plain(r) && a.Fun? && TypesUnify(r, a, b) && a != b && !b.TVar?
    ensures e in TypeEvents(r, a, b) <==> exists step :: StandsBehind(TyA(a), TyA(b), step, e)
    decreases a, 0
  {
    hide Stands, ListEvents;
    var n, m := |a.inputs|, |a.results|;
    ListPlaced(r, a.inputs, b.inputs, n, e);
    ListPlaced(r, a.results, b.results, m, e);
    InConcat(ListEvents(r, a.inputs, b.inputs, n), ListEvents(r, a.results, b.results, m), e);
    if i :| 0 <= i < n && Stands(TyA(a.inputs[i]), TyA(b.inputs[i]), e) {
      assert StandsBehind(TyA(a), TyA(b), In(i), e);
    }
    if i :| 0 <= i < m && Stands(TyA(a.results[i]), TyA(b.results[i]), e) {
      assert StandsBehind(TyA(a), TyA(b), Out(i), e);
    }
    if step :| StandsBehind(TyA(a), TyA(b), step, e) {
      if step.In? {
        assert Stands(TyA(a.inputs[step.input]), TyA(b.inputs[step.input]), e);
      } else {
        assert Stands(TyA(a.results[step.result]), TyA(b.results[step.result]), e);
      }
    }
  }

  lemma {:induction false} ListPlaced(r: Rules, ss: seq<Ty>, ts: seq<Ty>, n: nat, e: Event)
    requires Plain(r) && n <= |ss| == |ts| && forall i :: 0 <= i < n ==> TypesUnify(r, ss[i], ts[i])
    ensures e in ListEvents(r, ss, ts, n) <==> exists i :: 0 <= i < n && Stands(TyA(ss[i]), TyA(ts[i]), e)
    decreases ss, n
  {
    hide Stands, TypesUnify, TypeEvents;
    if n == 0 {
    } else {
      ListPlaced(r, ss, ts, n - 1, e);
      TypePlaced(r, ss[n - 1], ts[n - 1], e);
      InConcat(ListEvents(r, ss, ts, n - 1), TypeEvents(r, ss[n - 1], ts[n - 1]), e);
    }
  }

  lemma {:induction false} RecordsPlaced(r: Rules, ss: seq<Record>, ts: seq<Record>, n: nat, e: Event)
    requires Plain(r) && n <= |ss| == |ts|
    requires forall i :: 0 <= i < n ==> ss[i].name == ts[i].name && TypesUnify(r, ss[i].ty, ts[i].ty)
    ensures e in RecordEvents(r, ss, ts, n) <==> exists i :: 0 <= i < n && Stands(TyA(ss[i].ty), TyA(ts[i].ty), e)
    decreases ss, n
  {
    hide Stands, TypesUnify, TypeEvents;
    if n == 0 {
    } else {
      RecordsPlaced(r, ss, ts, n - 1, e);
      TypePlaced(r, ss[n - 1].ty, ts[n - 1].ty, e);
      InConcat(RecordEvents(r, ss, ts, n - 1), TypeEvents(r, ss[n - 1].ty, ts[n - 1].ty), e);
    }
  }

  lemma {:induction false} ParamsPlaced(r: Rules, xs: seq<Attr>, ys: seq<Attr>, dim: bool, n: nat, e: Event)
    requires Plain(r) && n <= |xs| == |ys| && forall i :: 0 <= i < n ==> ParamsUnify(r, xs[i], ys[i], dim)
    ensures e in ParamListEvents(r, xs, ys, dim, n) <==> exists i :: 0 <= i < n && Stands(xs[i], ys[i], e)
    decreases xs, n
  {
    hide Stands, ParamsUnify, ParamEvents;
    if n == 0 {
    } else {
      ParamsPlaced(r, xs, ys, dim, n - 1, e);
      ParamPlaced(r, xs[n - 1], ys[n - 1], dim, e);
      InConcat(ParamListEvents(r, xs, ys, dim, n - 1), ParamEvents(r, xs[n - 1], ys[n - 1], dim), e);
    }
  }

  lemma {:induction false} ParamPlaced(r: Rules, x: Attr, y: Attr, dim: bool, e: Event)
    requires Plain(r) && ParamsUnify(r, x, y, dim)
    ensures e in ParamEvents(r, x, y, dim) <==> Stands(x, y, e)
    decreases x
  {
    hide TypesUnify, TypeEvents, Stands;
    if x == y {
      NothingOnEqual(x, e);
    } else if x.TyA? && y.TyA? {
      TypePlaced(r, x.ty, y.ty, e);
    } else {
      OnlyHere(x, y, e);
    }
  }
}
