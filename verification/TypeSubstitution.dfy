/** What the map of a unification is for: put in for the symbols and affine maps of the left type, its values give the
    right type. */
module TypeSubstitution {
  import opened TypeUnify
  import opened TypeTracking
  import opened TypePlaces
  import opened TypeUnifier
  import opened TypeInstances

  type Symbols = map<(Side, Sym), Option<Attr>>
  type Affines = map<(Side, nat), Option<int>>

  function Named(name: Sym, s: Symbols): Attr {
    if (Lhs, name) in s && s[(Lhs, name)].Some? then s[(Lhs, name)].value else SymA(name)
  }

  /** The type with the left-hand values of the maps put in. */
  function Subst(t: Ty, s: Symbols, m: Affines): Ty
    decreases t
  {
    match t
    case TVar(name) => (match Named(name, s) case TyA(u) => u case _ => t)
    case Struct(n, xs) => Struct(n, SubstAttrs(xs, s, m))
    case Arr(elem, dims) => Arr(Subst(elem, s, m), SubstAttrs(dims, s, m))
    case Pod(rs) => Pod(seq(|rs|, i requires 0 <= i < |rs| => Record(rs[i].name, Subst(rs[i].ty, s, m))))
    case Fun(ps, rs) => Fun(SubstTypes(ps, s, m), SubstTypes(rs, s, m))
    case _ => t
  }

  function SubstTypes(ts: seq<Ty>, s: Symbols, m: Affines): (us: seq<Ty>)
    ensures |us| == |ts| && forall i :: 0 <= i < |ts| ==> us[i] == Subst(ts[i], s, m)
    decreases ts
  {
    seq(|ts|, i requires 0 <= i < |ts| => Subst(ts[i], s, m))
  }

  function SubstAttrs(xs: seq<Attr>, s: Symbols, m: Affines): (ys: seq<Attr>)
    ensures |ys| == |xs| && forall i :: 0 <= i < |xs| ==> ys[i] == SubstAttr(xs[i], s, m)
    decreases xs
  {
    seq(|xs|, i requires 0 <= i < |xs| => SubstAttr(xs[i], s, m))
  }

  function SubstAttr(x: Attr, s: Symbols, m: Affines): Attr
    decreases x
  {
    match x
    case SymA(name) => Named(name, s)
    case AffA(affine) => if (Lhs, affine) in m && m[(Lhs, affine)].Some? then IntA(m[(Lhs, affine)].value) else x
    case TyA(t) => TyA(Subst(t, s, m))
    case _ => x
  }

  /** Somewhere a wildcard dimension meets another size, or an affine map a wildcard: nothing is recorded there. */
  predicate WildcardMet(a: Ty, b: Ty)
    decreases a
  {
    match (a, b) {
      case (Struct(_, xs), Struct(_, ys)) =>
        |xs| == |ys| && exists i :: 0 <= i < |xs| && WildcardMetAttr(xs[i], ys[i])
      case (Arr(s, xs), Arr(t, ys)) =>
        WildcardMet(s, t) || (|xs| == |ys| && exists i :: 0 <= i < |xs| && WildcardMetAttr(xs[i], ys[i]))
      case (Pod(ss), Pod(ts)) => |ss| == |ts| && exists i :: 0 <= i < |ss| && WildcardMet(ss[i].ty, ts[i].ty)
      case (Fun(ps, ss), Fun(qs, ts)) =>
        || (|ps| == |qs| && exists i :: 0 <= i < |ps| && WildcardMet(ps[i], qs[i]))
        || (|ss| == |ts| && exists i :: 0 <= i < |ss| && WildcardMet(ss[i], ts[i]))
      case _ => false
    }
  }

  predicate WildcardMetAttr(x: Attr, y: Attr)
    decreases x
  {
    || (x.IntA? && y.IntA? && x != y)
    || (x.AffA? && IsDynamic(y))
    || (x.TyA? && y.TyA? && WildcardMet(x.ty, y.ty))
  }

  /** The maps give what the record says. */
  predicate Says(s: Symbols, m: Affines, e: Event) {
    match e
    case OfSymbol(side, name, attr) => (side, name) in s && s[(side, name)] == Some(attr)
    case OfAffine(side, affine, value) => (side, affine) in m && m[(side, affine)] == Some(value)
  }

  /** No affine map is given a wildcard. */
  ghost predicate Sized(m: Affines) { forall key :: key in m ==> m[key] != Some(DYNAMIC) }

  /** Every place that has a record for the left side gets from the maps what stands there. */
  ghost predicate Agrees(x: Attr, y: Attr, s: Symbols, m: Affines) {
    Sized(m) && forall e :: Stands(x, y, e) && e.side.Lhs? ==> Says(s, m, e)
  }

  lemma AgreesBehind(x: Attr, y: Attr, s: Symbols, m: Affines, step: Step)
    requires Agrees(x, y, s, m) && Child(x, step).There? && Child(y, step).There?
    ensures Agrees(Child(x, step).attr, Child(y, step).attr, s, m)
  {
    hide Stands, Child;
    forall e | Stands(Child(x, step).attr, Child(y, step).attr, e) && e.side.Lhs? ensures Says(s, m, e) {
      assert StandsBehind(x, y, step, e);
      Unfold(x, y, e);
    }
  }

  // ---------- the maps give the right type ----------

  lemma {:induction false} SubstGround(t: Ty, s: Symbols, m: Affines)
    requires Ground(t)
    ensures Subst(t, s, m) == t && !WildcardMet(t, t)
    decreases t
  {
    match t {
      case Struct(_, xs) => SubstGroundAttrs(xs, s, m);
      case Arr(elem, dims) =>
        SubstGround(elem, s, m);
        SubstGroundAttrs(dims, s, m);
      case Pod(rs) => forall i | 0 <= i < |rs| ensures Subst(rs[i].ty, s, m) == rs[i].ty &&
          !WildcardMet(rs[i].ty, rs[i].ty) { SubstGround(rs[i].ty, s, m); }
      case Fun(ps, rs) =>
        forall i | 0 <= i < |ps| ensures Subst(ps[i], s, m) == ps[i] && !WildcardMet(ps[i], ps[i]) {
          SubstGround(ps[i], s, m);
        }
        forall i | 0 <= i < |rs| ensures Subst(rs[i], s, m) == rs[i] && !WildcardMet(rs[i], rs[i]) {
          SubstGround(rs[i], s, m);
        }
      case _ =>
    }
  }

  lemma {:induction false} SubstGroundAttrs(xs: seq<Attr>, s: Symbols, m: Affines)
    requires forall i :: 0 <= i < |xs| ==> GroundAttr(xs[i])
    ensures SubstAttrs(xs, s, m) == xs && forall i :: 0 <= i < |xs| ==> !WildcardMetAttr(xs[i], xs[i])
    decreases xs
  {
    forall i | 0 <= i < |xs| ensures SubstAttr(xs[i], s, m) == xs[i] && !WildcardMetAttr(xs[i], xs[i]) {
      SubstGroundAttr(xs[i], s, m);
    }
  }

  lemma {:induction false} SubstGroundAttr(x: Attr, s: Symbols, m: Affines)
    requires GroundAttr(x)
    ensures SubstAttr(x, s, m) == x && !WildcardMetAttr(x, x)
    decreases x
  {
    if x.TyA? { SubstGround(x.ty, s, m); }
  }

  /** With every record honoured, the right type comes out, but for wildcard dimensions. */
  lemma {:induction false} SubstGives(a: Ty, b: Ty, s: Symbols, m: Affines)
    requires TypesUnify(PLAIN, a, b) && Ground(b) && Agrees(TyA(a), TyA(b), s, m)
    ensures Same(Subst(a, s, m), b) && (Subst(a, s, m) == b <==> !WildcardMet(a, b))
    decreases a, 1
  {
    hide Agrees, GroundAttr, WildcardMetAttr, SameParam, SubstAttr;
    var x, y := TyA(a), TyA(b);
    if a == b {
      SubstGround(b, s, m);
    } else if a.TVar? {
      VariableGives(a, b, s, m);
    } else {
      match (a, b) {
        case (Struct(_, _), Struct(_, _)) =>
          assert PLAIN.prefix + b.name == b.name;
          forall i | 0 <= i < |a.params| ensures Agrees(a.params[i], b.params[i], s, m) {
            AgreesBehind(x, y, s, m, Param(i));
          }
          SubstGivesAttrs(a.params, b.params, false, s, m);
        case (Arr(_, _), Arr(_, _)) => ArrGives(a, b, s, m);
        case (Pod(_), Pod(_)) => PodGives(a, b, s, m);
        case (Fun(_, _), Fun(_, _)) => FunGives(a, b, s, m);
        case _ =>
      }
    }
  }

  lemma VariableGives(a: Ty, b: Ty, s: Symbols, m: Affines)
    requires a.TVar? && a != b && Ground(b) && Agrees(TyA(a), TyA(b), s, m)
    ensures Subst(a, s, m) == b && !WildcardMet(a, b)
  {
    var e := OfSymbol(Lhs, a.name, TyA(b));
    OnlyHere(TyA(a), TyA(b), e);
    assert Says(s, m, e);
  }

  lemma ArrParts(a: Ty, b: Ty)
    requires TypesUnify(PLAIN, a, b) && Ground(b) && a.Arr? && b.Arr? && a != b
    ensures TypesUnify(PLAIN, a.elem, b.elem) && Ground(b.elem) && |a.dims| == |b.dims|
    ensures forall i :: 0 <= i < |a.dims| ==> ParamsUnify(PLAIN, a.dims[i], b.dims[i], true) && GroundAttr(b.dims[i])
  {
    hide ParamsUnify, GroundAttr;
  }

  lemma {:induction false} ArrGives(a: Ty, b: Ty, s: Symbols, m: Affines)
    requires TypesUnify(PLAIN, a, b) && Ground(b) && Agrees(TyA(a), TyA(b), s, m) && a.Arr? && b.Arr? && a != b
    ensures Same(Subst(a, s, m), b) && (Subst(a, s, m) == b <==> !WildcardMet(a, b))
    decreases a, 0
  {
    hide Agrees, GroundAttr, WildcardMetAttr, SameParam, SubstAttr, TypesUnify, ParamsUnify, Ground;
    ArrParts(a, b);
    AgreesBehind(TyA(a), TyA(b), s, m, Elem);
    SubstGives(a.elem, b.elem, s, m);
    forall i | 0 <= i < |a.dims| ensures Agrees(a.dims[i], b.dims[i], s, m) {
      AgreesBehind(TyA(a), TyA(b), s, m, Dim(i));
    }
    SubstGivesAttrs(a.dims, b.dims, true, s, m);
  }

  lemma RecordParts(a: Ty, b: Ty)
    requires TypesUnify(PLAIN, a, b) && Ground(b) && a.Pod? && b.Pod? && a != b
    ensures var ss, ts := a.records, b.records; |ss| == |ts| && forall i :: 0 <= i < |ss| ==>
        ss[i].name == ts[i].name && TypesUnify(PLAIN, ss[i].ty, ts[i].ty) && Ground(ts[i].ty)
  {}

  lemma {:induction false} PodGives(a: Ty, b: Ty, s: Symbols, m: Affines)
    requires TypesUnify(PLAIN, a, b) && Ground(b) && Agrees(TyA(a), TyA(b), s, m) && a.Pod? && b.Pod? && a != b
    ensures Same(Subst(a, s, m), b) && (Subst(a, s, m) == b <==> !WildcardMet(a, b))
    decreases a, 0
  {
    hide Agrees, TypesUnify, Ground;
    RecordParts(a, b);
    var ss, ts := a.records, b.records;
    var us := Subst(a, s, m).records;
    forall i | 0 <= i < |ss|
      ensures Same(us[i].ty, ts[i].ty) && (us[i] == ts[i] <==> !WildcardMet(ss[i].ty, ts[i].ty))
    {
      hide Subst, Same, WildcardMet;
      AgreesBehind(TyA(a), TyA(b), s, m, Rec(i));
      SubstGives(ss[i].ty, ts[i].ty, s, m);
    }
    hide Subst;
    assert us == ts <==> forall i :: 0 <= i < |us| ==> us[i] == ts[i];
  }

  lemma FunParts(a: Ty, b: Ty)
    requires TypesUnify(PLAIN, a, b) && Ground(b) && a.Fun? && b.Fun? && a != b
    ensures |a.inputs| == |b.inputs| && |a.results| == |b.results|
    ensures forall i :: 0 <= i < |a.inputs| ==> TypesUnify(PLAIN, a.inputs[i], b.inputs[i]) && Ground(b.inputs[i])
    ensures forall i :: 0 <= i < |a.results| ==> TypesUnify(PLAIN, a.results[i], b.results[i]) && Ground(b.results[i])
  {}

  lemma {:induction false} FunGives(a: Ty, b: Ty, s: Symbols, m: Affines)
    requires TypesUnify(PLAIN, a, b) && Ground(b) && Agrees(TyA(a), TyA(b), s, m) && a.Fun? && b.Fun? && a != b
    ensures Same(Subst(a, s, m), b) && (Subst(a, s, m) == b <==> !WildcardMet(a, b))
    decreases a, 0
  {
    hide Agrees, TypesUnify, Ground;
    FunParts(a, b);
    FunBehind(a, b, s, m);
    SubstGivesTypes(a.inputs, b.inputs, s, m);
    SubstGivesTypes(a.results, b.results, s, m);
  }

  lemma FunBehind(a: Ty, b: Ty, s: Symbols, m: Affines)
    requires Agrees(TyA(a), TyA(b), s, m) && a.Fun? && b.Fun?
    requires |a.inputs| == |b.inputs| && |a.results| == |b.results|
    ensures forall i :: 0 <= i < |a.inputs| ==> Agrees(TyA(a.inputs[i]), TyA(b.inputs[i]), s, m)
    ensures forall i :: 0 <= i < |a.results| ==> Agrees(TyA(a.results[i]), TyA(b.results[i]), s, m)
  {
    hide Agrees;
    forall i | 0 <= i < |a.inputs| ensures Agrees(TyA(a.inputs[i]), TyA(b.inputs[i]), s, m) {
      AgreesBehind(TyA(a), TyA(b), s, m, In(i));
    }
    forall i | 0 <= i < |a.results| ensures Agrees(TyA(a.results[i]), TyA(b.results[i]), s, m) {
      AgreesBehind(TyA(a), TyA(b), s, m, Out(i));
    }
  }

  lemma {:induction false} SubstGivesTypes(ss: seq<Ty>, ts: seq<Ty>, s: Symbols, m: Affines)
    requires |ss| == |ts| && forall i :: 0 <= i < |ss| ==>
        TypesUnify(PLAIN, ss[i], ts[i]) && Ground(ts[i]) && Agrees(TyA(ss[i]), TyA(ts[i]), s, m)
    ensures forall i :: 0 <= i < |ss| ==> Same(Subst(ss[i], s, m), ts[i])
    ensures SubstTypes(ss, s, m) == ts <==> forall i :: 0 <= i < |ss| ==> !WildcardMet(ss[i], ts[i])
    decreases ss
  {
    hide Agrees, TypesUnify, Ground, Same, WildcardMet, Subst;
    var us := SubstTypes(ss, s, m);
    forall i | 0 <= i < |ss| ensures Same(us[i], ts[i]) && (us[i] == ts[i] <==> !WildcardMet(ss[i], ts[i])) {
      SubstGives(ss[i], ts[i], s, m);
    }
    assert us == ts <==> forall i :: 0 <= i < |us| ==> us[i] == ts[i];
  }

  lemma {:induction false} SubstGivesAttrs(xs: seq<Attr>, ys: seq<Attr>, dim: bool, s: Symbols, m: Affines)
    requires |xs| == |ys| && forall i :: 0 <= i < |xs| ==>
        ParamsUnify(PLAIN, xs[i], ys[i], dim) && GroundAttr(ys[i]) && Agrees(xs[i], ys[i], s, m)
    ensures forall i :: 0 <= i < |xs| ==> SameParam(SubstAttr(xs[i], s, m), ys[i], dim)
    ensures SubstAttrs(xs, s, m) == ys <==> forall i :: 0 <= i < |xs| ==> !WildcardMetAttr(xs[i], ys[i])
    decreases xs
  {
    hide Agrees, ParamsUnify, GroundAttr, SameParam, WildcardMetAttr, SubstAttr;
    var us := SubstAttrs(xs, s, m);
    forall i | 0 <= i < |xs|
      ensures SameParam(us[i], ys[i], dim) && (us[i] == ys[i] <==> !WildcardMetAttr(xs[i], ys[i]))
    {
      SubstGivesAttr(xs[i], ys[i], dim, s, m);
    }
    assert us == ys <==> forall i :: 0 <= i < |us| ==> us[i] == ys[i];
  }

  lemma {:induction false} SubstGivesAttr(x: Attr, y: Attr, dim: bool, s: Symbols, m: Affines)
    requires ParamsUnify(PLAIN, x, y, dim) && GroundAttr(y) && Agrees(x, y, s, m)
    ensures SameParam(SubstAttr(x, s, m), y, dim) && (SubstAttr(x, s, m) == y <==> !WildcardMetAttr(x, y))
    decreases x
  {
    hide TypesUnify, Ground, Same, WildcardMet, Subst, Stands;
    if y.TyA? { GroundNotVariable(y.ty); }
    if x == y {
      SubstGroundAttr(y, s, m);
    } else {
      match x {
        case TyA(t) => SubstGives(t, y.ty, s, m);
        case SymA(name) => HonouredHere(x, y, s, m, OfSymbol(Lhs, name, y));
        case AffA(affine) => if !IsDynamic(y) { HonouredHere(x, y, s, m, OfAffine(Lhs, affine, y.value)); }
        case _ =>
      }
    }
  }

  lemma HonouredHere(x: Attr, y: Attr, s: Symbols, m: Affines, e: Event)
    requires Agrees(x, y, s, m) && Means(x, y, e) && e.side.Lhs?
    ensures Says(s, m, e)
  {
    Unfold(x, y, e);
  }

  // ---------- and no other values do ----------

  /** Values that give the right type honour every record. */
  lemma {:induction false} Forced(x: Attr, y: Attr, path: seq<Step>, s: Symbols, m: Affines, e: Event)
    requires SubstAttr(x, s, m) == y && GroundAttr(y) && StandsAt(x, y, path, e) && e.side.Lhs?
    ensures Says(s, m, e)
    decreases path
  {
    if path == [] {
      if y.TyA? { GroundNotVariable(y.ty); }
    } else {
      Forced(Child(x, path[0]).attr, Child(y, path[0]).attr, path[1..], s, m, e);
    }
  }

  /** The maps a unification leaves give the right type, when it is free of parameters, exactly when every left-hand
      entry has a value and no wildcard dimension is met; otherwise no values do. */
  lemma UnificationSubstitutes(a: Ty, b: Ty, s: Symbols, m: Affines)
    requires TypesUnify(PLAIN, a, b) && Ground(b)
    requires s == TrackAll(SymbolsOf(TypeEvents(PLAIN, a, b))) && m == TrackAll(AffinesOf(TypeEvents(PLAIN, a, b)))
    ensures AllValued(s, m) ==> Same(Subst(a, s, m), b)
    ensures Subst(a, s, m) == b <==> AllValued(s, m) && !WildcardMet(a, b)
    ensures (exists s', m' :: Sized(m') && Subst(a, s', m') == b) ==> Subst(a, s, m) == b
  {
    hide TrackAll, SymbolsOf, AffinesOf, TypeEvents, TypesUnify, Ground, Subst, Same, WildcardMet, Stands;
    NeverWildcard(a, b, m);
    if AllValued(s, m) {
      forall e | Stands(TyA(a), TyA(b), e) && e.side.Lhs? ensures Says(s, m, e) {
        Entered(a, b, s, m, e);
      }
      SubstGives(a, b, s, m);
    }
    forall s': Symbols, m': Affines | Sized(m') && Subst(a, s', m') == b
      ensures AllValued(s, m) && !WildcardMet(a, b)
    {
      forall e | Stands(TyA(a), TyA(b), e) && e.side.Lhs? ensures Says(s', m', e) { ForcedStands(a, b, s', m', e); }
      SubstGives(a, b, s', m');
      Valued(a, b, s, m, s', m');
    }
  }

  /** Every left-hand entry has a value. */
  ghost predicate AllValued(s: Symbols, m: Affines) {
    (forall key :: key in s && key.0.Lhs? ==> s[key].Some?) && forall key :: key in m && key.0.Lhs? ==> m[key].Some?
  }

  lemma ForcedStands(a: Ty, b: Ty, s: Symbols, m: Affines, e: Event)
    requires Subst(a, s, m) == b && Ground(b) && Stands(TyA(a), TyA(b), e) && e.side.Lhs?
    ensures Says(s, m, e)
  {
    var path :| StandsAt(TyA(a), TyA(b), path, e);
    Forced(TyA(a), TyA(b), path, s, m, e);
  }

  /** Only known sizes are recorded. */
  lemma NeverWildcard(a: Ty, b: Ty, m: Affines)
    requires TypesUnify(PLAIN, a, b) && m == TrackAll(AffinesOf(TypeEvents(PLAIN, a, b)))
    ensures Sized(m)
  {
    hide TrackAll, AffinesOf, TypeEvents, TypesUnify;
    forall key | key in m ensures m[key] != Some(DYNAMIC) {
      AffineEntry(PLAIN, a, b, key.0, key.1);
      var v: int :| Stands(TyA(a), TyA(b), OfAffine(key.0, key.1, v));
      assert v != DYNAMIC;
      assert m[key] == Some(DYNAMIC) ==> v == DYNAMIC;
    }
  }

  lemma Entered(a: Ty, b: Ty, s: Symbols, m: Affines, e: Event)
    requires TypesUnify(PLAIN, a, b) && AllValued(s, m) && Stands(TyA(a), TyA(b), e) && e.side.Lhs?
    requires s == TrackAll(SymbolsOf(TypeEvents(PLAIN, a, b))) && m == TrackAll(AffinesOf(TypeEvents(PLAIN, a, b)))
    ensures Says(s, m, e)
  {
    hide TrackAll, SymbolsOf, AffinesOf, TypeEvents, TypesUnify, Stands;
    if e.OfSymbol? {
      SymbolEntry(PLAIN, a, b, Lhs, e.name);
    } else {
      AffineEntry(PLAIN, a, b, Lhs, e.affine);
      var key: (Side, nat) := (Lhs, e.affine);
      assert key in m;
      var value: int := m[key].value;
      assert m[key] == Some(value);
    }
  }

  lemma Valued(a: Ty, b: Ty, s: Symbols, m: Affines, s': Symbols, m': Affines)
    requires TypesUnify(PLAIN, a, b) && Agrees(TyA(a), TyA(b), s', m')
    requires s == TrackAll(SymbolsOf(TypeEvents(PLAIN, a, b))) && m == TrackAll(AffinesOf(TypeEvents(PLAIN, a, b)))
    ensures AllValued(s, m)
  {
    hide TrackAll, SymbolsOf, AffinesOf, TypeEvents, TypesUnify, Stands;
    forall key | key in s && key.0.Lhs? ensures s[key].Some? {
      SymbolEntry(PLAIN, a, b, Lhs, key.1);
      var v :| Stands(TyA(a), TyA(b), OfSymbol(Lhs, key.1, v));
      assert Says(s', m', OfSymbol(Lhs, key.1, v));
      assert s[key] == Some(v);
    }
    forall key | key in m && key.0.Lhs? ensures m[key].Some? {
      AffineEntry(PLAIN, a, b, Lhs, key.1);
      var v :| Stands(TyA(a), TyA(b), OfAffine(Lhs, key.1, v));
      assert Says(s', m', OfAffine(Lhs, key.1, v));
      assert m[key] == Some(v);
    }
  }
}
