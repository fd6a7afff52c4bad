/** The zero-product rule of the range analysis: a product of (s - c) factors that must be zero pins the
    signal s to its roots. */
module ZeroProduct {
  import opened ModMath
  import opened Intervals

  datatype Option<T> = None | Some(value: T)

  /** A constrained value, unfolded. A reference (block argument or member read) at a `site` carries the
      one scalar signal it is known to denote, if there is exactly one. */
  datatype Val =
    | VConst(c: int)
    | VRef(site: nat, signal: Option<nat>)
    | VSub(l: Val, r: Val)
    | VMul(l: Val, r: Val)
    | VOther(id: nat)

  /** What signals, unresolved references and other values evaluate to. */
  datatype Env = Env(signals: nat -> int, sites: nat -> int, others: nat -> int)

  ghost function Eval(v: Val, env: Env): int {
    match v
    case VConst(c) => c
    case VRef(site, s) => if s.Some? then env.signals(s.value) else env.sites(site)
    case VSub(l, r) => Eval(l, env) - Eval(r, env)
    case VMul(l, r) => Eval(l, env) * Eval(r, env)
    case VOther(id) => env.others(id)
  }

  ghost predicate IsZero(f: Field, v: Val, env: Env)
    requires f.Valid()
  {
    Eval(v, env) % f.prime == 0
  }

  /** `v` is a product of factors s - c, c - s and s over the one signal `s`. */
  ghost predicate Factors(v: Val, s: nat) {
    match v
    case VMul(l, r) => Factors(l, s) && Factors(r, s)
    case VRef(_, signal) => signal == Some(s)
    case VSub(l, r) => (l.VRef? && l.signal == Some(s) && r.VConst?) || (l.VConst? && r.VRef? && r.signal == Some(s))
    case _ => false
  }

  /** The references to the signal in such a product. */
  ghost function Sites(v: Val): set<nat> {
    match v
    case VMul(l, r) => Sites(l) + Sites(r)
    case VRef(site, _) => {site}
    case VSub(l, r) => Sites(l) + Sites(r)
    case _ => {}
  }

  function Size(v: Val): nat {
    match v
    case VMul(l, r) => 1 + Size(l) + Size(r)
    case VSub(l, r) => 1 + Size(l) + Size(r)
    case _ => 1
  }

  function TotalSize(vs: seq<Val>): nat { if vs == [] then 0 else TotalSize(vs[..|vs| - 1]) + Size(vs[|vs| - 1]) }

  predicate IsZeroConst(f: Field, v: Val)
    requires f.Valid()
  {
    v.VConst? && f.Reduce(v.c) == f.Reduce(0)
  }

  // ---------- sorting the roots ----------

  ghost predicate Sorted(s: seq<int>) { forall i, j :: 0 <= i < j < |s| ==> s[i] <= s[j] }

  function InsertSorted(s: seq<int>, x: int): (r: seq<int>)
    ensures multiset(r) == multiset(s) + multiset{x}
  {
    if s == [] then [x]
    else if x <= s[0] then assert s == [s[0]] + s[1..]; [x] + s
    else assert s == [s[0]] + s[1..]; [s[0]] + InsertSorted(s[1..], x)
  }

  lemma {:induction false} InsertKeepsSorted(s: seq<int>, x: int)
    requires Sorted(s)
    ensures Sorted(InsertSorted(s, x))
  {
    if s != [] && x > s[0] {
      InsertKeepsSorted(s[1..], x);
      var r := InsertSorted(s[1..], x);
      forall k | 0 <= k < |r| ensures s[0] <= r[k] {
        assert r[k] in multiset(r);
        assert r[k] == x || r[k] in multiset(s[1..]);
      }
    }
  }

  function Sort(s: seq<int>): (r: seq<int>)
    ensures multiset(r) == multiset(s)
  {
    if s == [] then [] else assert s == s[..|s| - 1] + [s[|s| - 1]]; InsertSorted(Sort(s[..|s| - 1]), s[|s| - 1])
  }

  lemma {:induction false} SortSorts(s: seq<int>)
    ensures Sorted(Sort(s))
  {
    if s == [] {
    } else {
      SortSorts(s[..|s| - 1]);
      InsertKeepsSorted(Sort(s[..|s| - 1]), s[|s| - 1]);
    }
  }

  // ---------- one factor, one product ----------

  /** A factor s - c or c - s is zero exactly for s = c. */
  lemma FactorZero(f: Field, s: int, c: int)
    requires f.Valid()
    ensures (s - c) % f.prime == 0 <==> s % f.prime == f.Reduce(c)
    ensures (c - s) % f.prime == 0 <==> s % f.prime == f.Reduce(c)
  {
    ReduceIsMod(f, c);
    ModSub(s, c, f.prime);
    ModSub(c, s, f.prime);
  }

  lemma ProductZero(a: int, b: int, p: int)
    requires IsPrime(p)
    ensures (a * b) % p == 0 <==> a % p == 0 || b % p == 0
  {
    if (a * b) % p == 0 { Euclid(a, b, p); }
    if a % p == 0 { ModMul2(a, 0, b, b, p); }
    if b % p == 0 { ModMul2(a, a, b, 0, p); }
  }

  // ---------- the worklist ----------

  /** The tree is zero exactly when something still on the frontier is, or the signal is one of the roots found. */
  ghost predicate RootsSoFar(f: Field, tree: Val, frontier: seq<Val>, signal: Option<nat>, consts: seq<int>)
    requires f.Valid()
  {
    forall env: Env :: IsZero(f, tree, env) <==> AnyZero(f, frontier, env) || AtRoot(f, signal, consts, env)
  }

  ghost predicate AnyZero(f: Field, vs: seq<Val>, env: Env)
    requires f.Valid()
  {
    exists i :: 0 <= i < |vs| && IsZero(f, vs[i], env)
  }

  ghost predicate AtRoot(f: Field, signal: Option<nat>, consts: seq<int>, env: Env)
    requires f.Valid()
  {
    signal.Some? && env.signals(signal.value) % f.prime in consts
  }

  /** The tree is a product over `s` exactly when the part seen is and the frontier is. */
  ghost predicate ShapeSoFar(tree: Val, frontier: seq<Val>, signal: Option<nat>) {
    forall s: nat :: Factors(tree, s) <==> AllFactors(frontier, s) && (signal.Some? ==> signal.value == s)
  }

  ghost predicate AllFactors(vs: seq<Val>, s: nat) { forall i :: 0 <= i < |vs| ==> Factors(vs[i], s) }

  ghost function SitesOf(vs: seq<Val>): set<nat> { set i, x | 0 <= i < |vs| && x in Sites(vs[i]) :: x }

  lemma AnyZeroAppend(f: Field, vs: seq<Val>, v: Val, env: Env)
    requires f.Valid()
    ensures AnyZero(f, vs + [v], env) <==> AnyZero(f, vs, env) || IsZero(f, v, env)
  {
    var all := vs + [v];
    assert all[|vs|] == v;
    if AnyZero(f, all, env) {
      var i :| 0 <= i < |all| && IsZero(f, all[i], env);
      assert i < |vs| ==> vs[i] == all[i];
    }
    if AnyZero(f, vs, env) {
      var i :| 0 <= i < |vs| && IsZero(f, vs[i], env);
      assert all[i] == vs[i];
    }
  }

  lemma AllFactorsAppend(vs: seq<Val>, v: Val, s: nat)
    ensures AllFactors(vs + [v], s) <==> AllFactors(vs, s) && Factors(v, s)
  {
    var all := vs + [v];
    assert all[|vs|] == v && forall i :: 0 <= i < |vs| ==> all[i] == vs[i];
  }

  lemma SitesAppend(vs: seq<Val>, v: Val)
    ensures SitesOf(vs + [v]) == SitesOf(vs) + Sites(v)
  {
    var all := vs + [v];
    assert all[|vs|] == v && forall i :: 0 <= i < |vs| ==> all[i] == vs[i];
  }

  /** A product replaced by its two factors. */
  lemma StepMul(f: Field, tree: Val, rest: seq<Val>, a: Val, b: Val, found: Option<nat>, consts: seq<int>)
    requires f.Valid() && IsPrime(f.prime)
    requires RootsSoFar(f, tree, rest + [VMul(a, b)], found, consts) && ShapeSoFar(tree, rest + [VMul(a, b)], found)
    ensures RootsSoFar(f, tree, rest + [a, b], found, consts) && ShapeSoFar(tree, rest + [a, b], found)
    ensures SitesOf(rest + [a, b]) == SitesOf(rest + [VMul(a, b)])
    ensures TotalSize(rest + [a, b]) < TotalSize(rest + [VMul(a, b)])
  {
    var m := VMul(a, b);
    assert rest + [a, b] == (rest + [a]) + [b];
    forall env: Env ensures AnyZero(f, rest + [a, b], env) <==> AnyZero(f, rest + [m], env) {
      AnyZeroAppend(f, rest, a, env);
      AnyZeroAppend(f, rest + [a], b, env);
      AnyZeroAppend(f, rest, m, env);
      ProductZero(Eval(a, env), Eval(b, env), f.prime);
    }
    forall s: nat ensures AllFactors(rest + [a, b], s) <==> AllFactors(rest + [m], s) {
      AllFactorsAppend(rest, a, s);
      AllFactorsAppend(rest + [a], b, s);
      AllFactorsAppend(rest, m, s);
    }
    SitesAppend(rest, a);
    SitesAppend(rest + [a], b);
    SitesAppend(rest, m);
    assert (rest + [a, b])[..|rest| + 1] == rest + [a] && (rest + [a])[..|rest|] == rest &&
        (rest + [m])[..|rest|] == rest;
  }

  /** The reference and the constant of a factor, if `v` is one. */
  predicate IsFactor(v: Val) { v.VRef? || (v.VSub? && ((v.l.VRef? && v.r.VConst?) || (v.l.VConst? && v.r.VRef?))) }

  function FactorRef(v: Val): (r: Val)
    requires IsFactor(v)
    ensures r.VRef?
  {
    if v.VRef? then v else if v.r.VConst? then v.l else v.r
  }

  function FactorConst(v: Val): int
    requires IsFactor(v)
  {
    if v.VRef? then 0 else if v.r.VConst? then v.r.c else v.l.c
  }

  lemma FactorMeaning(f: Field, v: Val, s: nat, env: Env)
    requires f.Valid() && IsFactor(v) && FactorRef(v).signal == Some(s)
    ensures IsZero(f, v, env) <==> env.signals(s) % f.prime == f.Reduce(FactorConst(v))
  {
    var x, c := env.signals(s), FactorConst(v);
    FactorZero(f, x, c);
    assert Eval(FactorRef(v), env) == x;
    assert v.VSub? ==> Eval(v, env) == if v.r.VConst? then x - c else c - x;
    assert v.VRef? ==> Eval(v, env) == x - c;
  }

  /** A factor taken off the frontier: its constant is one more root. */
  lemma StepFactor(f: Field, tree: Val, rest: seq<Val>, v: Val, s: nat, found: Option<nat>, consts: seq<int>)
    requires f.Valid() && IsFactor(v) && FactorRef(v).signal == Some(s) && (found.Some? ==> found.value == s)
    requires (found.None? ==> consts == [])
    requires RootsSoFar(f, tree, rest + [v], found, consts) && ShapeSoFar(tree, rest + [v], found)
    ensures RootsSoFar(f, tree, rest, Some(s), consts + [f.Reduce(FactorConst(v))]) && ShapeSoFar(tree, rest, Some(s))
    ensures SitesOf(rest + [v]) == SitesOf(rest) + {FactorRef(v).site}
    ensures TotalSize(rest) < TotalSize(rest + [v])
  {
    var c := f.Reduce(FactorConst(v));
    forall env: Env ensures IsZero(f, tree, env) <==> AnyZero(f, rest, env) || AtRoot(f, Some(s), consts + [c], env) {
      AnyZeroAppend(f, rest, v, env);
      FactorMeaning(f, v, s, env);
    }
    forall q: nat ensures Factors(tree, q) <==> AllFactors(rest, q) && s == q {
      AllFactorsAppend(rest, v, q);
    }
    SitesAppend(rest, v);
    assert (rest + [v])[..|rest|] == rest;
  }

  /** The first thing on the frontier that is no factor of the one signal spoils the whole product. */
  lemma NotFactors(tree: Val, rest: seq<Val>, v: Val, found: Option<nat>)
    requires ShapeSoFar(tree, rest + [v], found) && !v.VMul?
    requires !IsFactor(v) || FactorRef(v).signal.None? || (found.Some? && found.value != FactorRef(v).signal.value)
    ensures !IsDecomposition(tree)
  {
    forall s: nat ensures !Factors(tree, s) {
      AllFactorsAppend(rest, v, s);
    }
  }

  ghost predicate IsDecomposition(v: Val) { exists s: nat :: Factors(v, s) }

  function Tree(f: Field, lhs: Val, rhs: Val): Val
    requires f.Valid()
  {
    if IsZeroConst(f, lhs) then rhs else lhs
  }

  /** The equality pins the signal to the roots. */
  ghost predicate Pins(f: Field, lhs: Val, rhs: Val, signal: nat, roots: seq<int>)
    requires f.Valid()
  {
    forall env: Env :: Eval(lhs, env) % f.prime == Eval(rhs, env) % f.prime <==> env.signals(signal) % f.prime in roots
  }

  /** The signal of a product that must be zero takes one of its roots, all of which the interval covers; the
      ends of the interval are roots. Succeeds exactly on such products against a zero constant. */
  method GetGeneralizedDecompInterval(f: Field, lhs: Val, rhs: Val)
    returns (ok: bool, signal: nat, sites: set<nat>, roots: seq<int>, iv: Interval)
    requires f.Valid() && IsPrime(f.prime)
    ensures ok <==> IsZeroConst(f, lhs) != IsZeroConst(f, rhs) && IsDecomposition(Tree(f, lhs, rhs))
    ensures ok ==> sites == Sites(Tree(f, lhs, rhs)) && Pins(f, lhs, rhs, signal, roots)
    ensures ok ==> forall c :: c in roots ==> Contains(f, iv, c)
    ensures ok ==>
        exists lo, hi :: lo in roots && hi in roots && iv == ReduceInterval(f, Unreduced(lo, hi)) && forall c ::
        c in roots ==> lo <= c <= hi
  {
    signal, sites, roots, iv := 0, {}, [], EmptyInterval();
    var lhsIsZero, rhsIsZero := IsZeroConst(f, lhs), IsZeroConst(f, rhs);
    if lhsIsZero == rhsIsZero {
      return false, signal, sites, roots, iv;
    }
    var tree := Tree(f, lhs, rhs);
    var found: Option<nat> := None;
    var consts: seq<int> := [];
    var frontier := [tree];
    StartWorklist(f, tree);
    hide RootsSoFar, ShapeSoFar, IsDecomposition, Pins, Factors, Sites, SitesOf, TotalSize, Field.Reduce;
    while frontier != []
      invariant RootsSoFar(f, tree, frontier, found, consts) && ShapeSoFar(tree, frontier, found)
      invariant (consts == [] <==> found.None?) && (frontier == [] ==> consts != [])
      invariant forall c :: c in consts ==> 0 <= c < f.prime
      invariant sites + SitesOf(frontier) == Sites(tree)
      decreases TotalSize(frontier)
    {
      var v := frontier[|frontier| - 1];
      ghost var before := frontier;
      frontier := frontier[..|frontier| - 1];
      assert before == frontier + [v];
      if v.VMul? {
        StepMul(f, tree, frontier, v.l, v.r, found, consts);
        frontier := frontier + [v.l, v.r];
      } else if !IsFactor(v) {
        NotFactors(tree, frontier, v, found);
        return false, signal, sites, roots, iv;
      } else {
        var ref := FactorRef(v);
        if ref.signal.None? || (found.Some? && found.value != ref.signal.value) {
          NotFactors(tree, frontier, v, found);
          return false, signal, sites, roots, iv;
        }
        StepFactor(f, tree, frontier, v, ref.signal.value, found, consts);
        found := ref.signal;
        sites := sites + {ref.site};
        ReduceIsMod(f, FactorConst(v));
        consts := consts + [f.Reduce(FactorConst(v))];
      }
    }
    var sorted := Sort(consts);
    SortSorts(consts);
    signal, roots := found.value, consts;
    RootsInOrder(consts, sorted);
    var lo, hi := sorted[0], sorted[|sorted| - 1];
    iv := ReduceInterval(f, Unreduced(lo, hi));
    forall c | c in roots ensures Contains(f, iv, c) {
      ReduceSound(f, Unreduced(lo, hi), c);
      Periods(f, c);
    }
    EndWorklist(f, lhs, rhs, signal, roots);
    ok := true;
  }

  lemma StartWorklist(f: Field, tree: Val)
    requires f.Valid()
    ensures RootsSoFar(f, tree, [tree], None, []) && ShapeSoFar(tree, [tree], None) && SitesOf([tree]) == Sites(tree)
  {
    assert [] + [tree] == [tree];
    forall env: Env ensures AnyZero(f, [tree], env) <==> IsZero(f, tree, env) { AnyZeroAppend(f, [], tree, env); }
    forall s: nat ensures AllFactors([tree], s) <==> Factors(tree, s) { AllFactorsAppend([], tree, s); }
    SitesAppend([], tree);
  }

  lemma EndWorklist(f: Field, lhs: Val, rhs: Val, signal: nat, roots: seq<int>)
    requires f.Valid() && IsZeroConst(f, lhs) != IsZeroConst(f, rhs)
    requires RootsSoFar(f, Tree(f, lhs, rhs), [], Some(signal), roots)
    requires ShapeSoFar(Tree(f, lhs, rhs), [], Some(signal))
    ensures IsDecomposition(Tree(f, lhs, rhs)) && Pins(f, lhs, rhs, signal, roots) && SitesOf([]) == {}
  {
    assert AllFactors([], signal) && Factors(Tree(f, lhs, rhs), signal);
    forall env: Env
      ensures Eval(lhs, env) % f.prime == Eval(rhs, env) % f.prime <==> env.signals(signal) % f.prime in roots
    {
      ZeroSide(f, if IsZeroConst(f, lhs) then lhs else rhs, env);
      assert !AnyZero(f, [], env);
      assert IsZero(f, Tree(f, lhs, rhs), env) <==> AtRoot(f, Some(signal), roots, env);
    }
  }

  lemma ZeroSide(f: Field, v: Val, env: Env)
    requires f.Valid() && IsZeroConst(f, v)
    ensures Eval(v, env) % f.prime == 0
  {
    ReduceIsMod(f, v.c);
    Canonical(f, 0);
  }

  lemma RootsInOrder(consts: seq<int>, sorted: seq<int>)
    requires multiset(sorted) == multiset(consts) && Sorted(sorted) && consts != []
    ensures sorted != [] && sorted[0] in consts && sorted[|sorted| - 1] in consts
    ensures forall c :: c in consts ==> sorted[0] <= c <= sorted[|sorted| - 1]
  {
    assert consts[0] in multiset(consts);
    assert sorted != [];
    assert sorted[0] in multiset(sorted) && sorted[|sorted| - 1] in multiset(sorted);
    forall c | c in consts ensures sorted[0] <= c <= sorted[|sorted| - 1] {
      assert c in multiset(sorted);
      var i :| 0 <= i < |sorted| && sorted[i] == c;
    }
  }
}
