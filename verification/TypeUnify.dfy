/** Types with template parameters, and when two of them unify. */
module TypeUnify {
  type Sym = seq<string>

  const DYNAMIC: int := -0x8000_0000_0000_0000

  datatype Ty =
    | I1
    | Index
    | Felt(field: string)
    | Str
    | TVar(name: Sym)
    | Struct(name: Sym, params: seq<Attr>)
    | Arr(elem: Ty, dims: seq<Attr>)
    | Pod(records: seq<Record>)
    | Fun(inputs: seq<Ty>, results: seq<Ty>)

  datatype Record = Record(name: string, ty: Ty)

  datatype Attr = IntA(value: int) | FeltA(felt: int) | SymA(name: Sym) | TyA(ty: Ty) | AffA(affine: nat)

  predicate IsDynamic(x: Attr) { x.IntA? && x.value == DYNAMIC }

  predicate ConstLike(x: Attr) { x.IntA? || x.SymA? || x.AffA? }

  /** The path added in front of right-hand struct names, and the pairs that count as unified without looking. */
  datatype Rules = Rules(prefix: Sym, known: (Ty, Ty) -> bool)

  const PLAIN := Rules([], (a, b) => false)

  // ---------- unification ----------

  predicate TypesUnify(r: Rules, a: Ty, b: Ty)
    decreases a
  {
    || a == b || r.known(a, b) || a.TVar? || b.TVar?
    || match (a, b) {
         case (Struct(n, xs), Struct(m, ys)) =>
           r.prefix + m == n && |xs| == |ys| && forall i :: 0 <= i < |xs| ==> ParamsUnify(r, xs[i], ys[i], false)
         case (Arr(s, xs), Arr(t, ys)) =>
           TypesUnify(r, s, t) && |xs| == |ys| && forall i :: 0 <= i < |xs| ==> ParamsUnify(r, xs[i], ys[i], true)
         case (Pod(ss), Pod(ts)) =>
           |ss| == |ts| && forall i :: 0 <= i < |ss| ==> ss[i].name == ts[i].name && TypesUnify(r, ss[i].ty, ts[i].ty)
         case (Fun(ps, ss), Fun(qs, ts)) =>
           && (|ps| == |qs| && forall i :: 0 <= i < |ps| ==> TypesUnify(r, ps[i], qs[i]))
           && (|ss| == |ts| && forall i :: 0 <= i < |ss| ==> TypesUnify(r, ss[i], ts[i]))
         case _ => false
       }
  }

  predicate ParamsUnify(r: Rules, x: Attr, y: Attr, dim: bool)
    decreases x
  {
    || x == y
    || (x.AffA? && y.IntA? && !IsDynamic(y)) || (y.AffA? && x.IntA? && !IsDynamic(x))
    || x.SymA? || y.SymA?
    || (dim && ((IsDynamic(x) && ConstLike(y)) || (IsDynamic(y) && ConstLike(x))))
    || (x.TyA? && y.TyA? && TypesUnify(r, x.ty, y.ty))
  }

  /** Which side is on the left does not matter. */
  lemma {:induction false} TypesSymmetric(a: Ty, b: Ty)
    ensures TypesUnify(PLAIN, a, b) == TypesUnify(PLAIN, b, a)
    decreases a
  {
    match (a, b) {
      case (Struct(n, xs), Struct(m, ys)) =>
        assert PLAIN.prefix + m == m && PLAIN.prefix + n == n;
        if |xs| == |ys| {
          forall i | 0 <= i < |xs| ensures ParamsUnify(PLAIN, xs[i], ys[i], false) ==
              ParamsUnify(PLAIN, ys[i], xs[i], false) { ParamsSymmetric(xs[i], ys[i], false); }
        }
      case (Arr(s, xs), Arr(t, ys)) =>
        TypesSymmetric(s, t);
        if |xs| == |ys| {
          forall i | 0 <= i < |xs| ensures ParamsUnify(PLAIN, xs[i], ys[i], true) ==
              ParamsUnify(PLAIN, ys[i], xs[i], true) { ParamsSymmetric(xs[i], ys[i], true); }
        }
      case (Pod(ss), Pod(ts)) =>
        if |ss| == |ts| {
          forall i | 0 <= i < |ss| ensures TypesUnify(PLAIN, ss[i].ty, ts[i].ty) ==
              TypesUnify(PLAIN, ts[i].ty, ss[i].ty) { TypesSymmetric(ss[i].ty, ts[i].ty); }
        }
      case (Fun(ps, ss), Fun(qs, ts)) =>
        if |ps| == |qs| {
          forall i | 0 <= i < |ps| ensures TypesUnify(PLAIN, ps[i], qs[i]) ==
              TypesUnify(PLAIN, qs[i], ps[i]) { TypesSymmetric(ps[i], qs[i]); }
        }
        if |ss| == |ts| {
          forall i | 0 <= i < |ss| ensures TypesUnify(PLAIN, ss[i], ts[i]) ==
              TypesUnify(PLAIN, ts[i], ss[i]) { TypesSymmetric(ss[i], ts[i]); }
        }
      case _ =>
    }
  }

  lemma {:induction false} ParamsSymmetric(x: Attr, y: Attr, dim: bool)
    ensures ParamsUnify(PLAIN, x, y, dim) == ParamsUnify(PLAIN, y, x, dim)
    decreases x
  {
    if x.TyA? && y.TyA? { TypesSymmetric(x.ty, y.ty); }
  }

  // ---------- more concrete ----------

  /** Everything symbolic on the left is at least as concrete on the right. Wildcard dimensions count as concrete. */
  predicate Refines(known: (Ty, Ty) -> bool, a: Ty, b: Ty)
    decreases a
  {
    || a == b || known(a, b) || a.TVar?
    || match (a, b) {
         case (Struct(n, xs), Struct(m, ys)) =>
           m == n && |xs| == |ys| && forall i :: 0 <= i < |xs| ==> ParamRefines(known, xs[i], ys[i], false)
         case (Arr(s, xs), Arr(t, ys)) =>
           Refines(known, s, t) && |xs| == |ys| && forall i :: 0 <= i < |xs| ==> ParamRefines(known, xs[i], ys[i], true)
         case (Pod(ss), Pod(ts)) =>
           |ss| == |ts| && forall i :: 0 <= i < |ss| ==> ss[i].name == ts[i].name && Refines(known, ss[i].ty, ts[i].ty)
         case (Fun(ps, ss), Fun(qs, ts)) =>
           && (|ps| == |qs| && forall i :: 0 <= i < |ps| ==> Refines(known, ps[i], qs[i]))
           && (|ss| == |ts| && forall i :: 0 <= i < |ss| ==> Refines(known, ss[i], ts[i]))
         case _ => false
       }
  }

  predicate IsSymbolic(x: Attr) { x.SymA? || (x.TyA? && x.ty.TVar?) }

  predicate ParamRefines(known: (Ty, Ty) -> bool, x: Attr, y: Attr, dim: bool)
    decreases x
  {
    || x == y
    || (x.AffA? && y.IntA? && !IsDynamic(y))
    || (x.SymA? && !IsSymbolic(y))
    || (dim && ((IsDynamic(x) && (y.IntA? || y.AffA?)) || (IsDynamic(y) && (x.IntA? || x.AffA?))))
    || (x.TyA? && y.TyA? && Refines(known, x.ty, y.ty))
  }
}
