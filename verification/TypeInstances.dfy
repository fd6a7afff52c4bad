/** What unification promises: types unify when they could become equal once their parameters are known. */
module TypeInstances {
  import opened TypeUnify

  /** Without type variables, symbols or affine maps. */
  predicate Ground(t: Ty)
    decreases t
  {
    match t
    case TVar(_) => false
    case Struct(_, params) => forall i :: 0 <= i < |params| ==> GroundAttr(params[i])
    case Arr(elem, dims) => Ground(elem) && forall i :: 0 <= i < |dims| ==> GroundAttr(dims[i])
    case Pod(records) => forall i :: 0 <= i < |records| ==> Ground(records[i].ty)
    case Fun(inputs, results) => (forall i :: 0 <= i < |inputs| ==> Ground(inputs[i])) &&
      forall i :: 0 <= i < |results| ==> Ground(results[i])
    case _ => true
  }

  predicate GroundAttr(x: Attr)
    decreases x
  {
    !x.SymA? && !x.AffA? && (x.TyA? ==> Ground(x.ty))
  }

  /** Array dimensions are sizes, symbols or affine maps, and elements are not arrays. */
  predicate Valid(t: Ty)
    decreases t
  {
    match t
    case Struct(_, params) => forall i :: 0 <= i < |params| ==> ValidAttr(params[i])
    case Arr(elem, dims) => Valid(elem) && !elem.Arr? && forall i :: 0 <= i < |dims| ==> ConstLike(dims[i])
    case Pod(records) => forall i :: 0 <= i < |records| ==> Valid(records[i].ty)
    case Fun(inputs, results) => (forall i :: 0 <= i < |inputs| ==> Valid(inputs[i])) &&
      forall i :: 0 <= i < |results| ==> Valid(results[i])
    case _ => true
  }

  predicate ValidAttr(x: Attr)
    decreases x
  {
    x.TyA? ==> Valid(x.ty)
  }

  /** `g` is `t` with every parameter given a value, at each place on its own. */
  predicate Instance(t: Ty, g: Ty)
    decreases t
  {
    match (t, g) {
      case (TVar(_), _) => Ground(g)
      case (Struct(n, xs), Struct(m, ys)) => n == m && |xs| == |ys| &&
        forall i :: 0 <= i < |xs| ==> InstanceAttr(xs[i], ys[i], false)
      case (Arr(s, xs), Arr(e, ys)) => Instance(s, e) && |xs| == |ys| &&
        forall i :: 0 <= i < |xs| ==> InstanceAttr(xs[i], ys[i], true)
      case (Pod(ss), Pod(ts)) => |ss| == |ts| &&
        forall i :: 0 <= i < |ss| ==> ss[i].name == ts[i].name && Instance(ss[i].ty, ts[i].ty)
      case (Fun(ps, ss), Fun(qs, ts)) =>
        && (|ps| == |qs| && forall i :: 0 <= i < |ps| ==> Instance(ps[i], qs[i]))
        && (|ss| == |ts| && forall i :: 0 <= i < |ss| ==> Instance(ss[i], ts[i]))
      case _ => t == g
    }
  }

  /** Symbols take any value of their place, affine maps a known integer, wildcard dimensions any integer. */
  predicate InstanceAttr(x: Attr, y: Attr, dim: bool)
    decreases x
  {
    match x
    case SymA(_) => GroundAttr(y) && (dim ==> y.IntA?)
    case AffA(_) => y.IntA? && !IsDynamic(y)
    case TyA(t) => y.TyA? && Instance(t, y.ty)
    case _ => x == y || (dim && IsDynamic(x) && y.IntA?)
  }

  // ---------- instances unify ----------

  /** Every instance is more concrete, whatever is known besides. */
  lemma {:induction false} InstanceRefines(known: (Ty, Ty) -> bool, t: Ty, g: Ty)
    requires Instance(t, g)
    ensures Refines(known, t, g)
    decreases t
  {
    match (t, g) {
      case (Struct(n, xs), Struct(m, ys)) =>
        forall i | 0 <= i < |xs|
          ensures ParamRefines(known, xs[i], ys[i], false)
        {
          InstanceParamRefines(known, xs[i], ys[i], false);
        }
      case (Arr(s, xs), Arr(e, ys)) =>
        InstanceRefines(known, s, e);
        forall i | 0 <= i < |xs|
          ensures ParamRefines(known, xs[i], ys[i], true)
        {
          InstanceParamRefines(known, xs[i], ys[i], true);
        }
      case (Pod(ss), Pod(ts)) =>
        forall i | 0 <= i < |ss|
          ensures Refines(known, ss[i].ty, ts[i].ty)
        {
          InstanceRefines(known, ss[i].ty, ts[i].ty);
        }
      case (Fun(ps, ss), Fun(qs, ts)) =>
        forall i | 0 <= i < |ps| ensures Refines(known, ps[i], qs[i]) { InstanceRefines(known, ps[i], qs[i]); }
        forall i | 0 <= i < |ss| ensures Refines(known, ss[i], ts[i]) { InstanceRefines(known, ss[i], ts[i]); }
      case _ =>
    }
  }

  lemma GroundNotVariable(t: Ty)
    requires Ground(t)
    ensures !t.TVar?
  {}

  lemma {:induction false} InstanceParamRefines(known: (Ty, Ty) -> bool, x: Attr, y: Attr, dim: bool)
    requires InstanceAttr(x, y, dim)
    ensures ParamRefines(known, x, y, dim)
    decreases x
  {
    if x.TyA? {
      InstanceRefines(known, x.ty, y.ty);
    } else if x.SymA? && y.TyA? {
      GroundNotVariable(y.ty);
    }
  }

  /** What is more concrete unifies. */
  lemma {:induction false} RefinesUnify(known: (Ty, Ty) -> bool, a: Ty, b: Ty)
    requires Refines(known, a, b)
    ensures TypesUnify(Rules([], known), a, b)
    decreases a
  {
    var r := Rules([], known);
    match (a, b) {
      case (Struct(n, xs), Struct(m, ys)) =>
        if a != b && !known(a, b) {
          assert r.prefix + m == n;
          forall i | 0 <= i < |xs|
            ensures ParamsUnify(r, xs[i], ys[i], false)
          {
            if xs[i].TyA? && ys[i].TyA? && xs[i] != ys[i] { RefinesUnify(known, xs[i].ty, ys[i].ty); }
          }
        }
      case (Arr(s, xs), Arr(t, ys)) =>
        if a != b && !known(a, b) {
          RefinesUnify(known, s, t);
          forall i | 0 <= i < |xs|
            ensures ParamsUnify(r, xs[i], ys[i], true)
          {
            if xs[i].TyA? && ys[i].TyA? && xs[i] != ys[i] { RefinesUnify(known, xs[i].ty, ys[i].ty); }
          }
        }
      case (Pod(ss), Pod(ts)) =>
        if a != b && !known(a, b) {
          forall i | 0 <= i < |ss| ensures TypesUnify(r, ss[i].ty, ts[i].ty) { RefinesUnify(known, ss[i].ty, ts[i].ty);
              }
        }
      case (Fun(ps, ss), Fun(qs, ts)) =>
        if a != b && !known(a, b) {
          forall i | 0 <= i < |ps| ensures TypesUnify(r, ps[i], qs[i]) { RefinesUnify(known, ps[i], qs[i]); }
          forall i | 0 <= i < |ss| ensures TypesUnify(r, ss[i], ts[i]) { RefinesUnify(known, ss[i], ts[i]); }
        }
      case _ =>
    }
  }

  // ---------- more concrete both ways ----------

  /** Equal but for the names of type variables, and for wildcard dimensions against sizes and affine maps. */
  predicate Same(a: Ty, b: Ty)
    decreases a
  {
    || a == b || (a.TVar? && b.TVar?)
    || match (a, b) {
         case (Struct(n, xs), Struct(m, ys)) => n == m && |xs| == |ys| &&
           forall i :: 0 <= i < |xs| ==> SameParam(xs[i], ys[i], false)
         case (Arr(s, xs), Arr(t, ys)) => Same(s, t) && |xs| == |ys| &&
           forall i :: 0 <= i < |xs| ==> SameParam(xs[i], ys[i], true)
         case (Pod(ss), Pod(ts)) => |ss| == |ts| &&
           forall i :: 0 <= i < |ss| ==> ss[i].name == ts[i].name && Same(ss[i].ty, ts[i].ty)
         case (Fun(ps, ss), Fun(qs, ts)) =>
           && (|ps| == |qs| && forall i :: 0 <= i < |ps| ==> Same(ps[i], qs[i]))
           && (|ss| == |ts| && forall i :: 0 <= i < |ss| ==> Same(ss[i], ts[i]))
         case _ => false
       }
  }

  predicate SameParam(x: Attr, y: Attr, dim: bool)
    decreases x
  {
    || x == y
    || (dim && ((IsDynamic(x) && (y.IntA? || y.AffA?)) || (IsDynamic(y) && (x.IntA? || x.AffA?))))
    || (x.TyA? && y.TyA? && Same(x.ty, y.ty))
  }

  /** Exactly when each of two types counts as more concrete than the other. */
  lemma {:induction false} BothWays(a: Ty, b: Ty)
    ensures Refines(PLAIN.known, a, b) && Refines(PLAIN.known, b, a) <==> Same(a, b)
    decreases a
  {
    match (a, b) {
      case (Struct(n, xs), Struct(m, ys)) => if |xs| == |ys| { ParamsBothWays(xs, ys, false); }
      case (Arr(s, xs), Arr(t, ys)) =>
        BothWays(s, t);
        if |xs| == |ys| { ParamsBothWays(xs, ys, true); }
      case (Pod(ss), Pod(ts)) =>
        if |ss| == |ts| { forall i | 0 <= i < |ss| { BothWays(ss[i].ty, ts[i].ty); } }
      case (Fun(ps, ss), Fun(qs, ts)) =>
        if |ps| == |qs| { TypesBothWays(ps, qs); }
        if |ss| == |ts| { TypesBothWays(ss, ts); }
      case _ =>
    }
  }

  lemma {:induction false} TypesBothWays(ps: seq<Ty>, qs: seq<Ty>)
    requires |ps| == |qs|
    ensures forall i ::
        0 <= i < |ps| ==>
        (Refines(PLAIN.known, ps[i], qs[i]) && Refines(PLAIN.known, qs[i], ps[i]) <==> Same(ps[i], qs[i]))
    decreases ps
  {
    forall i | 0 <= i < |ps| { BothWays(ps[i], qs[i]); }
  }

  lemma {:induction false} ParamsBothWays(xs: seq<Attr>, ys: seq<Attr>, dim: bool)
    requires |xs| == |ys|
    ensures forall i :: 0 <= i < |xs| ==>
      (ParamRefines(PLAIN.known, xs[i], ys[i], dim) && ParamRefines(PLAIN.known, ys[i], xs[i], dim) <==>
        SameParam(xs[i], ys[i], dim))
    decreases xs
  {
    forall i | 0 <= i < |xs| { ParamBothWays(xs[i], ys[i], dim); }
  }

  lemma {:induction false} ParamBothWays(x: Attr, y: Attr, dim: bool)
    ensures ParamRefines(PLAIN.known, x, y, dim) && ParamRefines(PLAIN.known, y, x, dim) <==> SameParam(x, y, dim)
    decreases x
  {
    if x.TyA? && y.TyA? { BothWays(x.ty, y.ty); }
  }

  lemma DimensionBothWays(x: Attr, y: Attr)
    requires SameParam(x, y, true)
    ensures Refines(PLAIN.known, Arr(Index, [x]), Arr(Index, [y]))
    ensures Refines(PLAIN.known, Arr(Index, [y]), Arr(Index, [x]))
  {
    BothWays(Arr(Index, [x]), Arr(Index, [y]));
  }

  /** The wildcard dimension, an affine map and a known size, each as concrete as the other, and two type variables. */
  lemma WildcardBothWays(a: Sym, b: Sym)
    ensures Refines(PLAIN.known, Arr(Index, [IntA(DYNAMIC)]), Arr(Index, [AffA(0)]))
    ensures Refines(PLAIN.known, Arr(Index, [AffA(0)]), Arr(Index, [IntA(DYNAMIC)]))
    ensures Refines(PLAIN.known, Arr(Index, [IntA(5)]), Arr(Index, [IntA(DYNAMIC)]))
    ensures Refines(PLAIN.known, Arr(Index, [IntA(DYNAMIC)]), Arr(Index, [IntA(5)]))
    ensures Refines(PLAIN.known, TVar(a), TVar(b)) && Refines(PLAIN.known, TVar(b), TVar(a))
  {
    DimensionBothWays(IntA(DYNAMIC), AffA(0));
    DimensionBothWays(IntA(5), IntA(DYNAMIC));
    BothWays(TVar(a), TVar(b));
  }

  // ---------- types that unify have a common instance ----------

  /** A value for every parameter. */
  function Grounded(t: Ty): (g: Ty)
    requires Valid(t)
    ensures Instance(t, g) && Ground(g) && Valid(g) && (g.Arr? ==> t.Arr?)
    decreases t
  {
    match t
    case TVar(_) => Felt("")
    case Struct(n, xs) => Struct(n, seq(|xs|, i requires 0 <= i < |xs| => GroundedAttr(xs[i])))
    case Arr(s, xs) => Arr(Grounded(s), seq(|xs|, i requires 0 <= i < |xs| => GroundedAttr(xs[i])))
    case Pod(ss) => Pod(seq(|ss|, i requires 0 <= i < |ss| => Record(ss[i].name, Grounded(ss[i].ty))))
    case Fun(ps, ss) => Fun(seq(|ps|, i requires 0 <= i < |ps| => Grounded(ps[i])),
      seq(|ss|, i requires 0 <= i < |ss| => Grounded(ss[i])))
    case _ => t
  }

  function GroundedAttr(x: Attr): (y: Attr)
    requires ValidAttr(x)
    ensures InstanceAttr(x, y, false) && InstanceAttr(x, y, ConstLike(x)) && GroundAttr(y) && ValidAttr(y)
    ensures (ConstLike(x) ==> y.IntA?)
    decreases x
  {
    match x
    case SymA(_) => IntA(0)
    case AffA(_) => IntA(0)
    case TyA(t) => TyA(Grounded(t))
    case _ => x
  }

  /** Two different affine maps at the same place. */
  predicate AffineClash(a: Ty, b: Ty)
    decreases a
  {
    match (a, b) {
      case (Struct(n, xs), Struct(m, ys)) => |xs| == |ys| && exists i :: 0 <= i < |xs| && AffineClashAttr(xs[i], ys[i])
      case (Arr(s, xs), Arr(t, ys)) => AffineClash(s, t) ||
        (|xs| == |ys| && exists i :: 0 <= i < |xs| && AffineClashAttr(xs[i], ys[i]))
      case (Pod(ss), Pod(ts)) => |ss| == |ts| && exists i :: 0 <= i < |ss| && AffineClash(ss[i].ty, ts[i].ty)
      case (Fun(ps, ss), Fun(qs, ts)) =>
        || (|ps| == |qs| && exists i :: 0 <= i < |ps| && AffineClash(ps[i], qs[i]))
        || (|ss| == |ts| && exists i :: 0 <= i < |ss| && AffineClash(ss[i], ts[i]))
      case _ => false
    }
  }

  predicate AffineClashAttr(x: Attr, y: Attr)
    decreases x
  {
    (x.AffA? && y.AffA? && x != y) || (x.TyA? && y.TyA? && AffineClash(x.ty, y.ty))
  }

  lemma {:induction false} NoClashWithSelf(a: Ty)
    ensures !AffineClash(a, a)
    decreases a
  {
    match a {
      case Struct(_, xs) => forall i | 0 <=
        i < |xs| ensures !AffineClashAttr(xs[i], xs[i]) { if xs[i].TyA? { NoClashWithSelf(xs[i].ty); } }
      case Arr(s, xs) =>
        NoClashWithSelf(s);
        forall i | 0 <= i < |xs| ensures !AffineClashAttr(xs[i], xs[i]) { if xs[i].TyA? { NoClashWithSelf(xs[i].ty); } }
      case Pod(ss) => forall i | 0 <= i < |ss| ensures !AffineClash(ss[i].ty, ss[i].ty) { NoClashWithSelf(ss[i].ty); }
      case Fun(ps, ss) =>
        forall i | 0 <= i < |ps| ensures !AffineClash(ps[i], ps[i]) { NoClashWithSelf(ps[i]); }
        forall i | 0 <= i < |ss| ensures !AffineClash(ss[i], ss[i]) { NoClashWithSelf(ss[i]); }
      case _ =>
    }
  }

  lemma {:induction false} UnifyNoClash(a: Ty, b: Ty)
    requires TypesUnify(PLAIN, a, b)
    ensures !AffineClash(a, b)
    decreases a
  {
    if a == b {
      NoClashWithSelf(a);
    } else {
      match (a, b) {
        case (Struct(_, xs), Struct(_, ys)) => forall i | 0 <=
          i < |xs| ensures !AffineClashAttr(xs[i], ys[i]) { ParamUnifyNoClash(xs[i], ys[i], false); }
        case (Arr(s, xs), Arr(t, ys)) =>
          UnifyNoClash(s, t);
          forall i | 0 <= i < |xs| ensures !AffineClashAttr(xs[i], ys[i]) { ParamUnifyNoClash(xs[i], ys[i], true); }
        case (Pod(ss), Pod(ts)) => forall i | 0 <=
          i < |ss| ensures !AffineClash(ss[i].ty, ts[i].ty) { UnifyNoClash(ss[i].ty, ts[i].ty); }
        case (Fun(ps, ss), Fun(qs, ts)) =>
          forall i | 0 <= i < |ps| ensures !AffineClash(ps[i], qs[i]) { UnifyNoClash(ps[i], qs[i]); }
          forall i | 0 <= i < |ss| ensures !AffineClash(ss[i], ts[i]) { UnifyNoClash(ss[i], ts[i]); }
        case _ =>
      }
    }
  }

  lemma {:induction false} ParamUnifyNoClash(x: Attr, y: Attr, dim: bool)
    requires ParamsUnify(PLAIN, x, y, dim)
    ensures !AffineClashAttr(x, y)
    decreases x
  {
    if x == y {
      if x.TyA? { NoClashWithSelf(x.ty); }
    } else if x.TyA? && y.TyA? {
      UnifyNoClash(x.ty, y.ty);
    }
  }

  /** A common instance of types that unify. */
  function Meet(a: Ty, b: Ty): (g: Ty)
    requires Valid(a) && Valid(b) && TypesUnify(PLAIN, a, b)
    ensures Instance(a, g) && Instance(b, g) && Valid(g) && (g.Arr? ==> a.Arr? || b.Arr?)
    decreases a
  {
    if a == b then Grounded(a)
    else if a.TVar? then Grounded(b)
    else if b.TVar? then Grounded(a)
    else match (a, b) {
      case (Struct(n, xs), Struct(_, ys)) => Struct(n, MeetParams(xs, ys, false))
      case (Arr(s, xs), Arr(t, ys)) => Arr(Meet(s, t), MeetParams(xs, ys, true))
      case (Pod(ss), Pod(ts)) => Pod(seq(|ss|,
        i requires 0 <= i < |ss| => Record(ss[i].name, Meet(ss[i].ty, ts[i].ty))))
      case (Fun(ps, ss), Fun(qs, ts)) => Fun(MeetTypes(ps, qs), MeetTypes(ss, ts))
    }
  }

  function MeetTypes(ps: seq<Ty>, qs: seq<Ty>): (gs: seq<Ty>)
    requires |ps| == |qs|
    requires forall i :: 0 <= i < |ps| ==> Valid(ps[i]) && Valid(qs[i]) && TypesUnify(PLAIN, ps[i], qs[i])
    ensures |gs| == |ps|
    ensures forall i :: 0 <= i < |ps| ==> Instance(ps[i], gs[i]) && Instance(qs[i], gs[i]) && Valid(gs[i])
    decreases ps
  {
    seq(|ps|, i requires 0 <= i < |ps| => Meet(ps[i], qs[i]))
  }

  function MeetParams(xs: seq<Attr>, ys: seq<Attr>, dim: bool): (zs: seq<Attr>)
    requires |xs| == |ys|
    requires forall i :: 0 <= i < |xs| ==> ValidAttr(xs[i]) && ValidAttr(ys[i]) && ParamsUnify(PLAIN, xs[i], ys[i], dim)
    requires dim ==> forall i :: 0 <= i < |xs| ==> ConstLike(xs[i]) && ConstLike(ys[i])
    ensures |zs| == |xs| && forall i :: 0 <= i < |xs| ==>
      InstanceAttr(xs[i], zs[i], dim) && InstanceAttr(ys[i], zs[i], dim) && ValidAttr(zs[i]) &&
        (dim ==> ConstLike(zs[i]))
    decreases xs
  {
    seq(|xs|, i requires 0 <= i < |xs| => MeetAttr(xs[i], ys[i], dim))
  }

  function MeetAttr(x: Attr, y: Attr, dim: bool): (z: Attr)
    requires ValidAttr(x) && ValidAttr(y) && ParamsUnify(PLAIN, x, y, dim) && (dim ==> ConstLike(x) && ConstLike(y))
    ensures InstanceAttr(x, z, dim) && InstanceAttr(y, z, dim) && ValidAttr(z) && (dim ==> ConstLike(z))
    decreases x
  {
    if x == y then GroundedAttr(x)
    else if x.TyA? && y.TyA? then TyA(Meet(x.ty, y.ty))
    else if x.SymA? then (if IsDynamic(y) && dim then IntA(0) else GroundedAttr(y))
    else if y.SymA? then (if IsDynamic(x) && dim then IntA(0) else GroundedAttr(x))
    else if x.AffA? && !IsDynamic(y) then y
    else if y.AffA? && !IsDynamic(x) then x
    else if IsDynamic(x) && y.IntA? then y
    else if IsDynamic(y) && x.IntA? then x
    else IntA(0)
  }

  lemma {:induction false} CommonInstanceUnifies(a: Ty, b: Ty, g: Ty)
    requires Instance(a, g) && Instance(b, g) && !AffineClash(a, b)
    ensures TypesUnify(PLAIN, a, b)
    decreases a
  {
    match (a, b) {
      case (Struct(n, xs), Struct(m, ys)) =>
        assert PLAIN.prefix + m == n;
        forall i | 0 <= i < |xs|
          ensures ParamsUnify(PLAIN, xs[i], ys[i], false)
        {
          CommonParamUnifies(xs[i], ys[i], g.params[i], false);
        }
      case (Arr(s, xs), Arr(t, ys)) =>
        CommonInstanceUnifies(s, t, g.elem);
        forall i | 0 <= i < |xs|
          ensures ParamsUnify(PLAIN, xs[i], ys[i], true)
        {
          CommonParamUnifies(xs[i], ys[i], g.dims[i], true);
        }
      case (Pod(ss), Pod(ts)) =>
        forall i | 0 <= i < |ss|
          ensures TypesUnify(PLAIN, ss[i].ty, ts[i].ty)
        {
          CommonInstanceUnifies(ss[i].ty, ts[i].ty, g.records[i].ty);
        }
      case (Fun(ps, ss), Fun(qs, ts)) =>
        forall i | 0 <= i < |ps|
          ensures TypesUnify(PLAIN, ps[i], qs[i])
        {
          CommonInstanceUnifies(ps[i], qs[i], g.inputs[i]);
        }
        forall i | 0 <= i < |ss|
          ensures TypesUnify(PLAIN, ss[i], ts[i])
        {
          CommonInstanceUnifies(ss[i], ts[i], g.results[i]);
        }
      case _ =>
    }
  }

  lemma {:induction false} CommonParamUnifies(x: Attr, y: Attr, z: Attr, dim: bool)
    requires InstanceAttr(x, z, dim) && InstanceAttr(y, z, dim) && !AffineClashAttr(x, y)
    ensures ParamsUnify(PLAIN, x, y, dim)
    decreases x
  {
    if x.TyA? && y.TyA? { CommonInstanceUnifies(x.ty, y.ty, z.ty); }
  }

  lemma MeetIsInstance(a: Ty, b: Ty)
    requires Valid(a) && Valid(b) && TypesUnify(PLAIN, a, b)
    ensures Valid(Meet(a, b)) && Instance(a, Meet(a, b)) && Instance(b, Meet(a, b))
  {
    hide Valid, Instance, TypesUnify;
  }

  /** Two types unify exactly when some type is an instance of both and no two different affine maps meet. */
  lemma UnifyIffCommonInstance(a: Ty, b: Ty)
    requires Valid(a) && Valid(b)
    ensures TypesUnify(PLAIN, a, b) <==>
        (exists g :: Valid(g) && Instance(a, g) && Instance(b, g)) && !AffineClash(a, b)
  {
    hide Valid, Instance, AffineClash, TypesUnify;
    if TypesUnify(PLAIN, a, b) {
      UnifyNoClash(a, b);
      MeetIsInstance(a, b);
    } else if exists g :: Valid(g) && Instance(a, g) && Instance(b, g) {
      var g :| Valid(g) && Instance(a, g) && Instance(b, g);
      if !AffineClash(a, b) { CommonInstanceUnifies(a, b, g); }
    }
  }

  // ---------- instances with flattened arrays ----------

  /** As `Instance`, but an array whose elements become arrays takes up their dimensions. */
  predicate Flattened(t: Ty, g: Ty)
    decreases t
  {
    match (t, g) {
      case (TVar(_), _) => Ground(g)
      case (Struct(n, xs), Struct(m, ys)) => n == m && |xs| == |ys| &&
        forall i :: 0 <= i < |xs| ==> FlattenedAttr(xs[i], ys[i], false)
      case (Arr(s, xs), Arr(e, ys)) =>
        && |xs| <= |ys| && (forall i :: 0 <= i < |xs| ==> FlattenedAttr(xs[i], ys[i], true))
        && Flattened(s, if |xs| == |ys| then e else Arr(e, ys[|xs|..]))
      case (Pod(ss), Pod(ts)) => |ss| == |ts| &&
        forall i :: 0 <= i < |ss| ==> ss[i].name == ts[i].name && Flattened(ss[i].ty, ts[i].ty)
      case (Fun(ps, ss), Fun(qs, ts)) =>
        && (|ps| == |qs| && forall i :: 0 <= i < |ps| ==> Flattened(ps[i], qs[i]))
        && (|ss| == |ts| && forall i :: 0 <= i < |ss| ==> Flattened(ss[i], ts[i]))
      case _ => t == g
    }
  }

  predicate FlattenedAttr(x: Attr, y: Attr, dim: bool)
    decreases x
  {
    match x
    case TyA(t) => y.TyA? && Flattened(t, y.ty)
    case _ => InstanceAttr(x, y, dim)
  }

  /** Somewhere an array has got dimensions from its elements. */
  predicate RankGrows(t: Ty, g: Ty)
    decreases t
  {
    match (t, g) {
      case (Struct(n, xs), Struct(m, ys)) => |xs| == |ys| &&
        exists i :: 0 <= i < |xs| && xs[i].TyA? && ys[i].TyA? && RankGrows(xs[i].ty, ys[i].ty)
      case (Arr(s, xs), Arr(e, ys)) => |xs| != |ys| || RankGrows(s, e)
      case (Pod(ss), Pod(ts)) => |ss| == |ts| && exists i :: 0 <= i < |ss| && RankGrows(ss[i].ty, ts[i].ty)
      case (Fun(ps, ss), Fun(qs, ts)) =>
        || (|ps| == |qs| && exists i :: 0 <= i < |ps| && RankGrows(ps[i], qs[i]))
        || (|ss| == |ts| && exists i :: 0 <= i < |ss| && RankGrows(ss[i], ts[i]))
      case _ => false
    }
  }

  lemma {:induction false} SameRank(t: Ty)
    ensures !RankGrows(t, t)
    decreases t
  {
    match t {
      case Struct(_, xs) => forall i | 0 <= i < |xs| &&
        xs[i].TyA? ensures !RankGrows(xs[i].ty, xs[i].ty) { SameRank(xs[i].ty); }
      case Arr(s, _) => SameRank(s);
      case Pod(ss) => forall i | 0 <= i < |ss| ensures !RankGrows(ss[i].ty, ss[i].ty) { SameRank(ss[i].ty); }
      case Fun(ps, ss) =>
        forall i | 0 <= i < |ps| ensures !RankGrows(ps[i], ps[i]) { SameRank(ps[i]); }
        forall i | 0 <= i < |ss| ensures !RankGrows(ss[i], ss[i]) { SameRank(ss[i]); }
      case _ =>
    }
  }

  /** An instantiation that flattens arrays gives a type that unifies exactly when no array has grown. */
  lemma {:induction false} FlattenedUnifies(t: Ty, g: Ty)
    requires Flattened(t, g) && Valid(t)
    ensures TypesUnify(PLAIN, t, g) <==> !RankGrows(t, g)
    decreases t
  {
    if t == g {
      SameRank(t);
    } else if !t.TVar? {
      assert !g.TVar?;
      match (t, g) {
        case (Struct(n, xs), Struct(m, ys)) =>
          assert PLAIN.prefix + m == n;
          forall i | 0 <= i < |xs|
            ensures ParamsUnify(PLAIN, xs[i], ys[i], false) <==>
                !(xs[i].TyA? && ys[i].TyA? && RankGrows(xs[i].ty, ys[i].ty))
          {
            FlattenedParamUnifies(xs[i], ys[i], false);
          }
        case (Arr(s, xs), Arr(e, ys)) =>
          if |xs| == |ys| {
            FlattenedUnifies(s, e);
            forall i | 0 <= i < |xs|
              ensures ParamsUnify(PLAIN, xs[i], ys[i], true)
            {
              FlattenedParamUnifies(xs[i], ys[i], true);
            }
          }
        case (Pod(ss), Pod(ts)) =>
          forall i | 0 <= i < |ss|
            ensures TypesUnify(PLAIN, ss[i].ty, ts[i].ty) <==> !RankGrows(ss[i].ty, ts[i].ty)
          {
            FlattenedUnifies(ss[i].ty, ts[i].ty);
          }
        case (Fun(ps, ss), Fun(qs, ts)) =>
          forall i | 0 <= i < |ps|
            ensures TypesUnify(PLAIN, ps[i], qs[i]) <==> !RankGrows(ps[i], qs[i])
          {
            FlattenedUnifies(ps[i], qs[i]);
          }
          forall i | 0 <= i < |ss|
            ensures TypesUnify(PLAIN, ss[i], ts[i]) <==> !RankGrows(ss[i], ts[i])
          {
            FlattenedUnifies(ss[i], ts[i]);
          }
        case _ =>
      }
    }
  }

  lemma {:induction false} FlattenedParamUnifies(x: Attr, y: Attr, dim: bool)
    requires FlattenedAttr(x, y, dim) && ValidAttr(x)
    ensures ParamsUnify(PLAIN, x, y, dim) <==> !(x.TyA? && y.TyA? && RankGrows(x.ty, y.ty))
    decreases x
  {
    if x.TyA? {
      if x == y { SameRank(x.ty); }
      FlattenedUnifies(x.ty, y.ty);
    } else {
      InstanceParamRefines(PLAIN.known, x, y, dim);
    }
  }

  /** The smallest case: an array of a type variable, instantiated with an array. */
  lemma GrowingInstance()
    ensures var t, g := Arr(TVar(["T"]), [IntA(2)]), Arr(Index, [IntA(2), IntA(3)]);
        Valid(t) && Flattened(t, g) && !TypesUnify(PLAIN, t, g)
  {
    var t, g := Arr(TVar(["T"]), [IntA(2)]), Arr(Index, [IntA(2), IntA(3)]);
    assert g.dims[|t.dims|..] == [IntA(3)] && GroundAttr(IntA(3)) && Ground(Index);
    assert FlattenedAttr(t.dims[0], g.dims[0], true);
    FlattenedUnifies(t, g);
  }
}
