/** The unifier: recursive unification that updates the two tracking maps, and the check for a more concrete type. */
module TypeUnifier {
  import opened TypeUnify
  import opened TypeTracking
  import opened TypePlaces

  datatype Option<T> = None | Some(value: T)

  // ---------- tracking ----------

  /** The first value is kept, a different one later leaves no value. */
  function Track<K, V(==)>(tracker: map<K, Option<V>>, key: K, val: V): map<K, Option<V>> {
    if key !in tracker then tracker[key := Some(val)]
    else if tracker[key] != Some(val) then tracker[key := None]
    else tracker
  }

  function TrackAll<K, V(==)>(tracked: seq<(K, V)>): map<K, Option<V>> {
    if tracked == [] then map[] else Track(TrackAll(tracked[..|tracked| - 1]), tracked[|tracked| - 1].0,
      tracked[|tracked| - 1].1)
  }

  ghost predicate Seen<K, V>(tracked: seq<(K, V)>, key: K, n: nat) {
    exists i :: 0 <= i < n && i < |tracked| && tracked[i].0 == key
  }

  ghost predicate AllAgree<K, V>(tracked: seq<(K, V)>, key: K, val: V) {
    forall i :: 0 <= i < |tracked| && tracked[i].0 == key ==> tracked[i].1 == val
  }

  /** A key is there when a value was tracked for it, and has a value exactly when all of them agreed. */
  lemma {:induction false} EntryAgrees<K, V>(tracked: seq<(K, V)>, key: K)
    ensures key in TrackAll(tracked) <==> Seen(tracked, key, |tracked|)
    ensures key in TrackAll(tracked) ==>
        forall val :: TrackAll(tracked)[key] == Some(val) <==> AllAgree(tracked, key, val)
  {
    if tracked == [] {
    } else {
      var n := |tracked| - 1;
      var before := tracked[..n];
      EntryAgrees(before, key);
      assert forall i :: 0 <= i < n ==> before[i] == tracked[i];
      if Seen(before, key, n) {
        var i :| 0 <= i < n && before[i].0 == key;
        assert tracked[i].0 == key;
      }
      if key in TrackAll(tracked) {
        forall val ensures TrackAll(tracked)[key] == Some(val) <==> AllAgree(tracked, key, val) {
          if key in TrackAll(before) {
            var i :| 0 <= i < n && before[i].0 == key;
            assert AllAgree(tracked, key, val) <==>
                AllAgree(before, key, val) && (tracked[n].0 == key ==> tracked[n].1 == val);
          } else {
            assert forall i :: 0 <= i < n ==> before[i].0 != key;
          }
        }
      }
    }
  }

  function SymbolsOf(events: seq<Event>): seq<((Side, Sym), Attr)> {
    if events == [] then []
    else
      var e := events[|events| - 1];
      var before := SymbolsOf(events[..|events| - 1]);
      if e.OfSymbol? then before + [((e.side, e.name), e.attr)] else before
  }

  function AffinesOf(events: seq<Event>): seq<((Side, nat), int)> {
    if events == [] then []
    else
      var e := events[|events| - 1];
      var before := AffinesOf(events[..|events| - 1]);
      if e.OfAffine? then before + [((e.side, e.affine), e.value)] else before
  }

  /** The maps hold what the events recorded. */
  ghost predicate Holds(unifications: map<(Side, Sym), Option<Attr>>, affineToInt: map<(Side, nat), Option<int>>,
          log: seq<Event>)
  {
    unifications == TrackAll(SymbolsOf(log)) && affineToInt == TrackAll(AffinesOf(log))
  }

  lemma SymbolHeld(unifications: map<(Side, Sym), Option<Attr>>, affineToInt: map<(Side, nat), Option<int>>,
          log: seq<Event>, side: Side, name: Sym, attr: Attr)
    requires Holds(unifications, affineToInt, log)
    ensures Holds(Track(unifications, (side, name), attr), affineToInt, log + [OfSymbol(side, name, attr)])
  {
    var log' := log + [OfSymbol(side, name, attr)];
    assert log'[..|log'| - 1] == log;
    var s := SymbolsOf(log');
    assert s[..|s| - 1] == SymbolsOf(log) && s[|s| - 1] == ((side, name), attr);
  }

  lemma AffineHeld(unifications: map<(Side, Sym), Option<Attr>>, affineToInt: map<(Side, nat), Option<int>>,
          log: seq<Event>, side: Side, affine: nat, value: int)
    requires Holds(unifications, affineToInt, log)
    ensures Holds(unifications, Track(affineToInt, (side, affine), value), log + [OfAffine(side, affine, value)])
  {
    var log' := log + [OfAffine(side, affine, value)];
    assert log'[..|log'| - 1] == log;
    var s := AffinesOf(log');
    assert s[..|s| - 1] == AffinesOf(log) && s[|s| - 1] == ((side, affine), value);
  }

  ghost predicate LhsKeys<K, V>(m: map<(Side, K), V>) { forall key :: key in m ==> key.0.Lhs? }

  lemma TrackLhs<K, V>(m: map<(Side, K), Option<V>>, key: (Side, K), val: V)
    ensures LhsKeys(Track(m, key, val)) <==> LhsKeys(m) && key.0.Lhs?
  {
    var m' := Track(m, key, val);
    assert key in m' && forall k :: k in m ==> k in m';
  }

  lemma SymbolSides(before: seq<Event>, e: Event)
    requires e.OfSymbol?
    ensures LhsKeys(TrackAll(SymbolsOf(before + [e]))) <==> LhsKeys(TrackAll(SymbolsOf(before))) && e.side.Lhs?
    ensures AffinesOf(before + [e]) == AffinesOf(before)
  {
    hide LhsKeys, TrackAll;
    SymbolHeld(TrackAll(SymbolsOf(before)), TrackAll(AffinesOf(before)), before, e.side, e.name, e.attr);
    TrackLhs(TrackAll(SymbolsOf(before)), (e.side, e.name), e.attr);
    assert (before + [e])[..|before|] == before;
  }

  lemma AffineSides(before: seq<Event>, e: Event)
    requires e.OfAffine?
    ensures LhsKeys(TrackAll(AffinesOf(before + [e]))) <==> LhsKeys(TrackAll(AffinesOf(before))) && e.side.Lhs?
    ensures SymbolsOf(before + [e]) == SymbolsOf(before)
  {
    hide LhsKeys, TrackAll;
    AffineHeld(TrackAll(SymbolsOf(before)), TrackAll(AffinesOf(before)), before, e.side, e.affine, e.value);
    TrackLhs(TrackAll(AffinesOf(before)), (e.side, e.affine), e.value);
    assert (before + [e])[..|before|] == before;
  }

  lemma NoSides()
    ensures LhsKeys(TrackAll(SymbolsOf([]))) && LhsKeys(TrackAll(AffinesOf([])))
  {}

  /** Whether some key is on the right-hand side is whether some event is. */
  lemma {:induction false} KeySides(events: seq<Event>)
    ensures OnlyLhs(events) <==> LhsKeys(TrackAll(SymbolsOf(events))) && LhsKeys(TrackAll(AffinesOf(events)))
  {
    hide LhsKeys, TrackAll, SymbolsOf, AffinesOf;
    if events == [] {
      NoSides();
    } else {
      var n := |events| - 1;
      var before, e := events[..n], events[n];
      KeySides(before);
      assert events == before + [e];
      OnlyLhsConcat(before, [e]);
      if e.OfSymbol? { SymbolSides(before, e); } else { AffineSides(before, e); }
    }
  }

  // ---------- the unifier ----------

  class Unifier {
    const rules: Rules
    var unifications: map<(Side, Sym), Option<Attr>>
    var affineToInt: map<(Side, nat), Option<int>>
    ghost var log: seq<Event>

    constructor (rules: Rules)
      ensures this.rules == rules && Valid() && log == []
    {
      this.rules := rules;
      unifications, affineToInt, log := map[], map[], [];
    }

    ghost predicate Valid()
      reads this
    {
      Holds(unifications, affineToInt, log)
    }

    method TrackSymbol(side: Side, name: Sym, attr: Attr)
      requires Valid()
      modifies this
      ensures Valid() && log == old(log) + [OfSymbol(side, name, attr)]
    {
      hide Holds, Track;
      SymbolHeld(unifications, affineToInt, log, side, name, attr);
      unifications := Track(unifications, (side, name), attr);
      log := log + [OfSymbol(side, name, attr)];
    }

    method TrackAffine(side: Side, affine: nat, value: int)
      requires Valid()
      modifies this
      ensures Valid() && log == old(log) + [OfAffine(side, affine, value)]
    {
      hide Holds, Track;
      AffineHeld(unifications, affineToInt, log, side, affine, value);
      affineToInt := Track(affineToInt, (side, affine), value);
      log := log + [OfAffine(side, affine, value)];
    }

    method TrackParam(side: Side, name: Sym, x: Attr)
      requires Valid()
      modifies this
      ensures Valid() && log == old(log) + SymbolEvents(side, name, x)
    {
      hide Holds;
      var attr := x;
      if x.TyA? && x.ty.TVar? { attr := SymA(x.ty.name); }
      if attr.SymA? { TrackSymbol(Reverse(side), attr.name, SymA(name)); }
      TrackSymbol(side, name, attr);
    }

    method UnifyTypes(a: Ty, b: Ty) returns (ok: bool)
      requires Valid()
      modifies this
      ensures Valid() && ok == TypesUnify(rules, a, b) && log == old(log) + TypeEvents(rules, a, b)
      decreases a, 1
    {
      hide Holds, ParamsUnify, ListEvents, RecordEvents, ParamListEvents;
      if a == b || rules.known(a, b) { return true; }
      if a.TVar? {
        TrackSymbol(Lhs, a.name, AsAttr(b));
        return true;
      }
      if b.TVar? {
        TrackSymbol(Rhs, b.name, AsAttr(a));
        return true;
      }
      if a.Struct? && b.Struct? {
        ok := UnifyStructs(a, b);
      } else if a.Arr? && b.Arr? {
        ok := UnifyArrays(a, b);
      } else if a.Pod? && b.Pod? {
        ok := UnifyRecords(a.records, b.records);
      } else if a.Fun? && b.Fun? {
        ok := UnifyFunctions(a, b);
      } else {
        ok := false;
      }
    }

    method UnifyStructs(a: Ty, b: Ty) returns (ok: bool)
      requires Valid() && a.Struct? && b.Struct? && a != b && !rules.known(a, b)
      modifies this
      ensures Valid() && ok == TypesUnify(rules, a, b) && log == old(log) + TypeEvents(rules, a, b)
      decreases a, 0
    {
      hide Holds, ParamsUnify, ParamListEvents;
      if rules.prefix + b.name != a.name { return false; }
      ok := UnifyParams(a.params, b.params, false);
    }

    method UnifyArrays(a: Ty, b: Ty) returns (ok: bool)
      requires Valid() && a.Arr? && b.Arr? && a != b && !rules.known(a, b)
      modifies this
      ensures Valid() && ok == TypesUnify(rules, a, b) && log == old(log) + TypeEvents(rules, a, b)
      decreases a, 0
    {
      hide Holds, ParamsUnify, ParamListEvents;
      ok := UnifyTypes(a.elem, b.elem);
      if ok { ok := UnifyParams(a.dims, b.dims, true); }
    }

    method UnifyFunctions(a: Ty, b: Ty) returns (ok: bool)
      requires Valid() && a.Fun? && b.Fun? && a != b && !rules.known(a, b)
      modifies this
      ensures Valid() && ok == TypesUnify(rules, a, b) && log == old(log) + TypeEvents(rules, a, b)
      decreases a, 0
    {
      hide Holds, ListEvents;
      ok := UnifyLists(a.inputs, b.inputs);
      if ok { ok := UnifyLists(a.results, b.results); }
    }

    method UnifyLists(ss: seq<Ty>, ts: seq<Ty>) returns (ok: bool)
      requires Valid()
      modifies this
      ensures Valid() && (ok <==> |ss| == |ts| && forall i :: 0 <= i < |ss| ==> TypesUnify(rules, ss[i], ts[i]))
      ensures log == old(log) + if |ss| == |ts| then ListEvents(rules, ss, ts, |ss|) else []
      decreases ss
    {
      hide Holds, TypesUnify, TypeEvents, ParamsUnify, ParamEvents;
      if |ss| != |ts| { return false; }
      ok := true;
      var i := 0;
      while i < |ss|
        invariant i <= |ss| && Valid() && (ok <==> forall j :: 0 <= j < i ==> TypesUnify(rules, ss[j], ts[j]))
        invariant log == old(log) + ListEvents(rules, ss, ts, i)
      {
        if ok { ok := UnifyTypes(ss[i], ts[i]); }
        i := i + 1;
      }
    }

    method UnifyRecords(ss: seq<Record>, ts: seq<Record>) returns (ok: bool)
      requires Valid()
      modifies this
      ensures Valid()
      ensures (ok <==>
          |ss| == |ts| && forall i ::
          0 <= i < |ss| ==> ss[i].name == ts[i].name && TypesUnify(rules, ss[i].ty, ts[i].ty))
      ensures log == old(log) + if |ss| == |ts| then RecordEvents(rules, ss, ts, |ss|) else []
      decreases ss
    {
      hide Holds, TypesUnify, TypeEvents, ParamsUnify, ParamEvents;
      if |ss| != |ts| { return false; }
      ok := true;
      var i := 0;
      while i < |ss|
        invariant i <= |ss| && Valid()
        invariant (ok <==> forall j :: 0 <= j < i ==> ss[j].name == ts[j].name && TypesUnify(rules, ss[j].ty, ts[j].ty))
        invariant log == old(log) + RecordEvents(rules, ss, ts, i)
      {
        if ok {
          ok := ss[i].name == ts[i].name;
          if ok { ok := UnifyTypes(ss[i].ty, ts[i].ty); }
        }
        i := i + 1;
      }
    }

    method UnifyParams(xs: seq<Attr>, ys: seq<Attr>, dim: bool) returns (ok: bool)
      requires Valid()
      modifies this
      ensures Valid() && (ok <==> |xs| == |ys| && forall i :: 0 <= i < |xs| ==> ParamsUnify(rules, xs[i], ys[i], dim))
      ensures log == old(log) + if |xs| == |ys| then ParamListEvents(rules, xs, ys, dim, |xs|) else []
      decreases xs
    {
      hide Holds, TypesUnify, TypeEvents, ParamsUnify, ParamEvents;
      if |xs| != |ys| { return false; }
      ok := true;
      var i := 0;
      while i < |xs|
        invariant i <= |xs| && Valid() && (ok <==> forall j :: 0 <= j < i ==> ParamsUnify(rules, xs[j], ys[j], dim))
        invariant log == old(log) + ParamListEvents(rules, xs, ys, dim, i)
      {
        if ok { ok := UnifyParam(xs[i], ys[i], dim); }
        i := i + 1;
      }
    }

    method UnifyParam(x: Attr, y: Attr, dim: bool) returns (ok: bool)
      requires Valid()
      modifies this
      ensures Valid() && ok == ParamsUnify(rules, x, y, dim) && log == old(log) + ParamEvents(rules, x, y, dim)
      decreases x
    {
      hide Holds, TypesUnify, TypeEvents, SymbolEvents;
      if x == y { return true; }
      if x.AffA? && y.IntA? && !IsDynamic(y) {
        TrackAffine(Lhs, x.affine, y.value);
        return true;
      }
      if y.AffA? && x.IntA? && !IsDynamic(x) {
        TrackAffine(Rhs, y.affine, x.value);
        return true;
      }
      if x.SymA? {
        TrackParam(Lhs, x.name, y);
        return true;
      }
      if y.SymA? {
        TrackParam(Rhs, y.name, x);
        return true;
      }
      if dim && ((IsDynamic(x) && ConstLike(y)) || (IsDynamic(y) && ConstLike(x))) { return true; }
      if x.TyA? && y.TyA? {
        ok := UnifyTypes(x.ty, y.ty);
      } else {
        ok := false;
      }
    }
  }

  // ---------- the maps in terms of the two types ----------

  lemma {:induction false} SymbolListed(events: seq<Event>, side: Side, name: Sym, attr: Attr)
    ensures ((side, name), attr) in SymbolsOf(events) <==> OfSymbol(side, name, attr) in events
  {
    if events == [] {
    } else {
      var n := |events| - 1;
      assert events == events[..n] + [events[n]];
      SymbolListed(events[..n], side, name, attr);
    }
  }

  lemma {:induction false} AffineListed(events: seq<Event>, side: Side, affine: nat, value: int)
    ensures ((side, affine), value) in AffinesOf(events) <==> OfAffine(side, affine, value) in events
  {
    if events == [] {
    } else {
      var n := |events| - 1;
      assert events == events[..n] + [events[n]];
      AffineListed(events[..n], side, affine, value);
    }
  }

  lemma SeenAgree<K, V>(tracked: seq<(K, V)>, key: K)
    ensures Seen(tracked, key, |tracked|) <==> exists val :: (key, val) in tracked
    ensures forall val :: AllAgree(tracked, key, val) <==> forall v :: (key, v) in tracked ==> v == val
  {
    if i :| 0 <= i < |tracked| && tracked[i].0 == key { assert tracked[i] == (key, tracked[i].1); }
    forall val | forall v :: (key, v) in tracked ==> v == val ensures AllAgree(tracked, key, val) {
      forall i | 0 <= i < |tracked| && tracked[i].0 == key ensures tracked[i].1 == val {
        assert tracked[i] == (key, tracked[i].1);
      }
    }
  }

  /** When two types unify, a symbol has an entry if and only if it stands opposite something, and a value if and only
      if
      it stands opposite that value everywhere. */
  lemma SymbolEntry(r: Rules, a: Ty, b: Ty, side: Side, name: Sym)
    requires Plain(r) && TypesUnify(r, a, b)
    ensures var entries := TrackAll(SymbolsOf(TypeEvents(r, a, b)));
            && ((side, name) in entries <==> exists v :: Stands(TyA(a), TyA(b), OfSymbol(side, name, v)))
            && ((side, name) in entries ==> forall attr :: entries[(side, name)] == Some(attr) <==>
              forall v :: Stands(TyA(a), TyA(b), OfSymbol(side, name, v)) ==> v == attr)
  {
    hide TrackAll, SymbolsOf, TypeEvents, TypesUnify, Stands, Seen, AllAgree;
    var events := TypeEvents(r, a, b);
    var tracked := SymbolsOf(events);
    EntryAgrees(tracked, (side, name));
    SeenAgree(tracked, (side, name));
    forall v ensures ((side, name), v) in tracked <==> Stands(TyA(a), TyA(b), OfSymbol(side, name, v)) {
      SymbolListed(events, side, name, v);
      TypePlaced(r, a, b, OfSymbol(side, name, v));
    }
  }

  /** The same for affine maps and the integers they stand opposite. */
  lemma AffineEntry(r: Rules, a: Ty, b: Ty, side: Side, affine: nat)
    requires Plain(r) && TypesUnify(r, a, b)
    ensures var entries := TrackAll(AffinesOf(TypeEvents(r, a, b)));
            && ((side, affine) in entries <==> exists v :: Stands(TyA(a), TyA(b), OfAffine(side, affine, v)))
            && ((side, affine) in entries ==> forall value :: entries[(side, affine)] == Some(value) <==>
              forall v :: Stands(TyA(a), TyA(b), OfAffine(side, affine, v)) ==> v == value)
  {
    hide TrackAll, AffinesOf, TypeEvents, TypesUnify, Stands;
    var events := TypeEvents(r, a, b);
    var tracked := AffinesOf(events);
    var key: (Side, nat) := (side, affine);
    EntryAgrees<(Side, nat), int>(tracked, key);
    forall v: int ensures (key, v) in tracked <==> Stands(TyA(a), TyA(b), OfAffine(side, affine, v)) {
      AffineListed(events, side, affine, v);
      TypePlaced(r, a, b, OfAffine(side, affine, v));
    }
    if i :| 0 <= i < |tracked| && tracked[i].0 == key {
      var v: int := tracked[i].1;
      assert tracked[i] == (key, v);
    }
    forall value: int ensures AllAgree(tracked, key, value) <==> forall v: int :: (key, v) in tracked ==> v == value {
      forall i | 0 <= i < |tracked| && tracked[i].0 == key && tracked[i].1 != value
        ensures (key, tracked[i].1) in tracked
      {
        assert tracked[i] == (key, tracked[i].1);
      }
    }
  }

  /** A symbol on a side has an entry when something was recorded for it, and a value when everything recorded for it
      agreed. When the types unify, that is what the symbol stands opposite in the two types. */
  method UnifyWithMap(lhs: Ty, rhs: Ty, prefix: Sym) returns (ok: bool, unifications: map<(Side, Sym), Option<Attr>>)
    ensures ok == TypesUnify(Rules(prefix, PLAIN.known), lhs, rhs)
    ensures var tracked := SymbolsOf(TypeEvents(Rules(prefix, PLAIN.known), lhs, rhs));
            && (forall key :: key in unifications <==> Seen(tracked, key, |tracked|))
            && (forall key, attr ::
              key in unifications ==> (unifications[key] == Some(attr) <==> AllAgree(tracked, key, attr)))
    ensures unifications == TrackAll(SymbolsOf(TypeEvents(Rules(prefix, PLAIN.known), lhs, rhs)))
    ensures ok ==> forall key :: key in unifications <==>
        exists v :: Stands(TyA(lhs), TyA(rhs), OfSymbol(key.0, key.1, v))
    ensures ok ==> forall key, attr :: key in unifications ==> (unifications[key] == Some(attr) <==>
        forall v :: Stands(TyA(lhs), TyA(rhs), OfSymbol(key.0, key.1, v)) ==> v == attr)
  {
    hide TypesUnify, TypeEvents, TrackAll, SymbolsOf, AffinesOf, Seen, AllAgree, Stands;
    var r := Rules(prefix, PLAIN.known);
    var unifier := new Unifier(r);
    ok := unifier.UnifyTypes(lhs, rhs);
    unifications := unifier.unifications;
    assert unifier.log == TypeEvents(r, lhs, rhs);
    ghost var tracked := SymbolsOf(TypeEvents(r, lhs, rhs));
    forall key ensures key in unifications <==> Seen(tracked, key, |tracked|) { EntryAgrees(tracked, key); }
    forall key, attr | key in unifications
      ensures unifications[key] == Some(attr) <==> AllAgree(tracked, key, attr)
    {
      EntryAgrees(tracked, key);
    }
    if ok {
      assert unifications == TrackAll(tracked);
      forall key: (Side, Sym) ensures
          && (key in unifications <==> exists v :: Stands(TyA(lhs), TyA(rhs), OfSymbol(key.0, key.1, v)))
          && (key in unifications ==> forall attr :: unifications[key] == Some(attr) <==>
            forall v :: Stands(TyA(lhs), TyA(rhs), OfSymbol(key.0, key.1, v)) ==> v == attr) {
        SymbolEntry(r, lhs, rhs, key.0, key.1);
      }
    }
  }

  /** True exactly when the new type is, place by place, at least as concrete as the old one. */
  method IsMoreConcreteUnification(oldTy: Ty, newTy: Ty, knownOldToNew: (Ty, Ty) -> bool) returns (result: bool)
    ensures result <==> Refines(knownOldToNew, oldTy, newTy)
  {
    hide TypesUnify, TypeEvents, Refines, TrackAll, SymbolsOf, AffinesOf, OnlyLhs;
    OnlyLhsRefines(knownOldToNew, oldTy, newTy);
    var unifier := new Unifier(Rules([], knownOldToNew));
    var ok := unifier.UnifyTypes(oldTy, newTy);
    assert unifier.log == TypeEvents(Rules([], knownOldToNew), oldTy, newTy);
    if !ok { return false; }
    KeySides(unifier.log);
    result := !(exists key :: key in unifier.unifications && key.0.Rhs?) &&
      !(exists key :: key in unifier.affineToInt && key.0.Rhs?);
  }
}
