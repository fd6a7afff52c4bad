/** What read/write elimination knows at a point of the code, and that it is true on every run. */
module KnownFacts {
  import opened MemoryIr

  /** How an access names a row: a constant distance, or a symbol or map applied to values. */
  datatype RowKey = AtRow(k: int) | AtResolved(form: nat, operands: seq<Id>)

  datatype Place = MemberPlace(comp: Id, member: nat, row: RowKey) | ElemPlace(arr: Id, index: int)

  /** What a place is known to hold, and the last write that nothing has depended on since. */
  datatype Node = Node(stored: Id, lastWrite: Option<nat>)

  /** A RAM address: by constant or by value. */
  datatype Address = ByConst(c: int) | ByValue(v: Id)

  ghost predicate PlaceDefined(p: Place, n: nat) {
    p.MemberPlace? && p.row.AtResolved? ==> forall k :: 0 <= k < |p.row.operands| ==> p.row.operands[k] < n
  }

  ghost function CellAt(w: World, env: seq<int>, p: Place): Cell
    requires PlaceDefined(p, |env|)
  {
    match p
    case ElemPlace(arr, index) => ElemCell(arr, index)
    case MemberPlace(comp, member, row) => MemberCell(comp, member, if row.AtRow? then row.k
      else w.offset(row.form, Vals(env, row.operands)))
  }

  function AddressValue(env: seq<int>, a: Address): int
    requires a.ByValue? ==> a.v < |env|
  {
    if a.ByConst? then a.c else env[a.v]
  }

  // ---------- facts about every run ----------

  ghost predicate EnvEq(base: nat, prog: seq<Op>, i: nat, u: Id, v: Id)
    requires WellFormed(base, prog) && i <= |prog|
  {
    u < base + i && v < base + i && forall w: World, m: Machine ::
      |m.env| == base ==> At(w, base, prog, i, m).env[u] == At(w, base, prog, i, m).env[v]
  }

  ghost predicate CellIs(base: nat, prog: seq<Op>, i: nat, p: Place, v: Id)
    requires WellFormed(base, prog) && i <= |prog|
  {
    v < base + i && IsVal(base, prog, v) && PlaceDefined(p, base + i) &&
      forall w: World, m: Machine :: |m.env| == base ==>
      At(w, base, prog, i, m).cells(CellAt(w, At(w, base, prog, i, m).env, p)) == At(w, base, prog, i, m).env[v]
  }

  ghost predicate GlobalIs(base: nat, prog: seq<Op>, i: nat, name: nat, v: Id)
    requires WellFormed(base, prog) && i <= |prog|
  {
    v < base + i && IsVal(base, prog, v) &&
      forall w: World, m: Machine ::
      |m.env| == base ==> At(w, base, prog, i, m).globals(name) == At(w, base, prog, i, m).env[v]
  }

  ghost predicate RamIs(base: nat, prog: seq<Op>, i: nat, a: Address, v: Id)
    requires WellFormed(base, prog) && i <= |prog|
  {
    v < base + i && IsVal(base, prog, v) && (a.ByValue? ==> a.v < base + i) &&
      forall w: World, m: Machine :: |m.env| == base ==>
      At(w, base, prog, i, m).ram(AddressValue(At(w, base, prog, i, m).env, a)) == At(w, base, prog, i, m).env[v]
  }

  /** Operation `op` cannot change what place `p` holds. */
  predicate Spares(base: nat, prog: seq<Op>, op: Op, p: Place) {
    match op
    case WriteMember(comp, member, _) => p.ElemPlace? || p.comp != comp || p.member != member ||
      (p.row.AtRow? && p.row.k != 0)
    case WriteArray(arr, idx, _) => p.MemberPlace? || p.arr != arr || !IsConst(base, prog, idx) ||
      p.index != prog[idx - base].c
    case _ => true
  }

  lemma ValsPrefix(env: seq<int>, env': seq<int>, ids: seq<Id>)
    requires |env| <= |env'| && env'[..|env|] == env && forall k :: 0 <= k < |ids| ==> ids[k] < |env|
    ensures Vals(env, ids) == Vals(env', ids)
  {
    forall k | 0 <= k < |ids| ensures env'[ids[k]] == env[ids[k]] { assert env'[..|env|][ids[k]] == env'[ids[k]]; }
  }

  lemma CellPrefix(w: World, env: seq<int>, env': seq<int>, p: Place)
    requires |env| <= |env'| && env'[..|env|] == env && PlaceDefined(p, |env|)
    ensures CellAt(w, env, p) == CellAt(w, env', p)
  {
    if p.MemberPlace? && p.row.AtResolved? { ValsPrefix(env, env', p.row.operands); }
  }

  lemma CellKept(base: nat, prog: seq<Op>, i: nat, p: Place, v: Id)
    requires WellFormed(base, prog) && i < |prog| && CellIs(base, prog, i, p, v) && Spares(base, prog, prog[i], p)
    requires (p.ElemPlace? ==> p.arr < base + i)
    ensures CellIs(base, prog, i + 1, p, v)
  {
    var n := i + 1;
    assert OpOk(base, prog, i);
    forall w: World, m: Machine | |m.env| == base
      ensures At(w, base, prog, n, m).cells(CellAt(w, At(w, base, prog, n, m).env, p)) == At(w, base, prog, n, m).env[v]
    {
      AtStep(w, base, prog, i, m);
      var s, s' := At(w, base, prog, i, m), At(w, base, prog, n, m);
      CellPrefix(w, s.env, s'.env, p);
      assert s'.env[..|s.env|][v] == s'.env[v];
      if prog[i].WriteArray? {
        DefinedArgs(prog[i], base + i);
        ConstValue(w, base, prog, i, prog[i].idx, m);
      }
    }
  }

  lemma GlobalKept(base: nat, prog: seq<Op>, i: nat, name: nat, v: Id)
    requires WellFormed(base, prog) && i < |prog| && GlobalIs(base, prog, i, name, v)
    requires !prog[i].Effect? && (prog[i].WriteGlobal? ==> prog[i].name != name)
    ensures GlobalIs(base, prog, i + 1, name, v)
  {
    var n := i + 1;
    forall w: World, m: Machine | |m.env| == base
      ensures At(w, base, prog, n, m).globals(name) == At(w, base, prog, n, m).env[v]
    {
      AtStep(w, base, prog, i, m);
      var s, s' := At(w, base, prog, i, m), At(w, base, prog, n, m);
      assert s'.env[..|s.env|][v] == s'.env[v];
    }
  }

  lemma RamKept(base: nat, prog: seq<Op>, i: nat, a: Address, v: Id)
    requires WellFormed(base, prog) && i < |prog| && RamIs(base, prog, i, a, v) && !prog[i].Effect? && !prog[i].Store?
    ensures RamIs(base, prog, i + 1, a, v)
  {
    var n := i + 1;
    forall w: World, m: Machine | |m.env| == base
      ensures At(w, base, prog, n, m).ram(AddressValue(At(w, base, prog, n, m).env, a)) ==
          At(w, base, prog, n, m).env[v]
    {
      AtStep(w, base, prog, i, m);
      var s, s' := At(w, base, prog, i, m), At(w, base, prog, n, m);
      assert s'.env[..|s.env|][v] == s'.env[v];
      assert a.ByValue? ==> s'.env[..|s.env|][a.v] == s'.env[a.v];
    }
  }

  lemma EnvKept(base: nat, prog: seq<Op>, i: nat, u: Id, v: Id)
    requires WellFormed(base, prog) && i < |prog| && EnvEq(base, prog, i, u, v)
    ensures EnvEq(base, prog, i + 1, u, v)
  {
    var n := i + 1;
    forall w: World, m: Machine | |m.env| == base
      ensures At(w, base, prog, n, m).env[u] == At(w, base, prog, n, m).env[v]
    {
      AtStep(w, base, prog, i, m);
      var s, s' := At(w, base, prog, i, m), At(w, base, prog, n, m);
      assert s'.env[..|s.env|][v] == s'.env[v] && s'.env[..|s.env|][u] == s'.env[u];
    }
  }

  // ---------- naming what an access refers to ----------

  function Translate(repl: map<Id, Id>, v: Id): Id { if v in repl then repl[v] else v }

  function TranslateAll(repl: map<Id, Id>, vs: seq<Id>): (r: seq<Id>)
    ensures |r| == |vs| && forall k :: 0 <= k < |vs| ==> r[k] == Translate(repl, vs[k])
  {
    seq(|vs|, k requires 0 <= k < |vs| => Translate(repl, vs[k]))
  }

  /** Where a cell access goes, with replaced operands looked up. */
  function PlaceOf(base: nat, prog: seq<Op>, op: Op, repl: map<Id, Id>): Place
    requires op.ReadMember? || op.WriteMember? || op.ReadArray? || op.WriteArray?
  {
    match op
    case ReadMember(comp, member, off) =>
      MemberPlace(Translate(repl, comp), member, if off.Row? then AtRow(off.k)
        else AtResolved(off.form, TranslateAll(repl, off.operands)))
    case WriteMember(comp, member, _) => MemberPlace(Translate(repl, comp), member, AtRow(0))
    case ReadArray(arr, idx) => ElemPlace(Translate(repl, arr), if IsConst(base, prog, idx) then prog[idx - base].c
      else 0)
    case WriteArray(arr, idx, _) => ElemPlace(Translate(repl, arr), if IsConst(base, prog, idx) then prog[idx - base].c
      else 0)
  }

  function AddressOf(base: nat, prog: seq<Op>, v: Id): Address {
    if IsConst(base, prog, v) then ByConst(prog[v - base].c) else ByValue(v)
  }

  /** Replacements so far: reads stand for earlier, unreplaced values that are equal on every run. */
  ghost predicate ReplOk(base: nat, prog: seq<Op>, i: nat, repl: map<Id, Id>)
    requires WellFormed(base, prog) && i <= |prog|
  {
    forall v :: v in repl ==>
      && base <= v < base + i && prog[v - base].IsErasable() && !prog[v - base].NewStruct? && !prog[v - base].NewArray?
      && repl[v] < v && repl[v] !in repl && IsVal(base, prog, repl[v]) && EnvEq(base, prog, i, v, repl[v])
  }

  lemma TranslateEq(base: nat, prog: seq<Op>, i: nat, repl: map<Id, Id>, v: Id)
    requires WellFormed(base, prog) && i <= |prog| && ReplOk(base, prog, i, repl) && v < base + i
    ensures Translate(repl, v) < base + i && Translate(repl, v) !in repl && EnvEq(base, prog, i, v, Translate(repl, v))
    ensures IsVal(base, prog, v) ==> IsVal(base, prog, Translate(repl, v))
  {}

  /** The translated place is the cell the access really touches. */
  lemma PlaceIsCell(w: World, base: nat, prog: seq<Op>, i: nat, repl: map<Id, Id>, m: Machine)
    requires WellFormed(base, prog) && i < |prog| && ReplOk(base, prog, i, repl) && |m.env| == base
    requires prog[i].ReadMember? || prog[i].WriteMember? || prog[i].ReadArray? || prog[i].WriteArray?
    ensures Defined(prog[i], base + i) && PlaceDefined(PlaceOf(base, prog, prog[i], repl), base + i)
    ensures CellAt(w, At(w, base, prog, i, m).env, PlaceOf(base, prog, prog[i], repl)) ==
        CellOf(w, prog[i], At(w, base, prog, i, m).env)
  {
    assert OpOk(base, prog, i);
    DefinedArgs(prog[i], base + i);
    var env := At(w, base, prog, i, m).env;
    if prog[i].ReadArray? || prog[i].WriteArray? {
      ConstValue(w, base, prog, i, prog[i].idx, m);
    } else if prog[i].ReadMember? && prog[i].off.Resolved? {
      var ids := prog[i].off.operands;
      forall k | 0 <= k < |ids|
        ensures Translate(repl, ids[k]) < base + i && env[Translate(repl, ids[k])] == env[ids[k]]
      {
        TranslateEq(base, prog, i, repl, ids[k]);
      }
      assert Vals(env, TranslateAll(repl, ids)) == Vals(env, ids);
    }
  }

  // ---------- what one operation establishes ----------

  /** A read of a place whose content is known gives a value equal to the known one. */
  lemma ReadKnown(base: nat, prog: seq<Op>, i: nat, repl: map<Id, Id>, v: Id)
    requires WellFormed(base, prog) && i < |prog| && ReplOk(base, prog, i, repl)
    requires (prog[i].ReadMember? || prog[i].ReadArray?)
    requires CellIs(base, prog, i, PlaceOf(base, prog, prog[i], repl), v)
    ensures EnvEq(base, prog, i + 1, base + i, v)
  {
    var n := i + 1;
    forall w: World, m: Machine | |m.env| == base
      ensures At(w, base, prog, n, m).env[base + i] == At(w, base, prog, n, m).env[v]
    {
      PlaceIsCell(w, base, prog, i, repl, m);
      AtStep(w, base, prog, i, m);
      var s, s' := At(w, base, prog, i, m), At(w, base, prog, n, m);
      assert s'.env[..|s.env|][v] == s'.env[v];
    }
  }

  /** A first read makes the content of its place known. */
  lemma ReadFresh(base: nat, prog: seq<Op>, i: nat, repl: map<Id, Id>)
    requires WellFormed(base, prog) && i < |prog| && ReplOk(base, prog, i, repl)
    requires (prog[i].ReadMember? || prog[i].ReadArray?)
    ensures CellIs(base, prog, i + 1, PlaceOf(base, prog, prog[i], repl), base + i)
  {
    var n := i + 1;
    var p := PlaceOf(base, prog, prog[i], repl);
    forall w: World, m: Machine | |m.env| == base
      ensures PlaceDefined(p, base + i)
      ensures At(w, base, prog, n, m).cells(CellAt(w, At(w, base, prog, n, m).env, p)) ==
          At(w, base, prog, n, m).env[base + i]
    {
      PlaceIsCell(w, base, prog, i, repl, m);
      AtStep(w, base, prog, i, m);
      CellPrefix(w, At(w, base, prog, i, m).env, At(w, base, prog, n, m).env, p);
    }
    PlaceHasCell(base, prog, i, repl);
  }

  lemma PlaceHasCell(base: nat, prog: seq<Op>, i: nat, repl: map<Id, Id>)
    requires WellFormed(base, prog) && i < |prog| && ReplOk(base, prog, i, repl)
    requires prog[i].ReadMember? || prog[i].WriteMember? || prog[i].ReadArray? || prog[i].WriteArray?
    ensures PlaceDefined(PlaceOf(base, prog, prog[i], repl), base + i)
    ensures PlaceOf(base, prog, prog[i], repl).ElemPlace? ==> PlaceOf(base, prog, prog[i], repl).arr < base + i
  {
    var w := World((t, a) => 0, (t, a) => 0, (t, a, n, o) => 0, (t, a, n, o) => 0);
    var m := Machine(seq(base, k => 0), (cell: Cell) => 0, n => 0, a => 0, []);
    PlaceIsCell(w, base, prog, i, repl, m);
    DefinedArgs(prog[i], base + i);
    if prog[i].ReadArray? || prog[i].WriteArray? { TranslateEq(base, prog, i, repl, prog[i].arr); }
  }

  /** A write makes its value the content of its place. */
  lemma WriteSets(base: nat, prog: seq<Op>, i: nat, repl: map<Id, Id>)
    requires WellFormed(base, prog) && i < |prog| && ReplOk(base, prog, i, repl) && prog[i].IsWrite()
    ensures CellIs(base, prog, i + 1, PlaceOf(base, prog, prog[i], repl), Translate(repl, prog[i].val))
  {
    var n := i + 1;
    var p, v := PlaceOf(base, prog, prog[i], repl), Translate(repl, prog[i].val);
    PlaceHasCell(base, prog, i, repl);
    assert OpOk(base, prog, i);
    DefinedArgs(prog[i], base + i);
    TranslateEq(base, prog, i, repl, prog[i].val);
    forall w: World, m: Machine | |m.env| == base
      ensures At(w, base, prog, n, m).cells(CellAt(w, At(w, base, prog, n, m).env, p)) == At(w, base, prog, n, m).env[v]
    {
      PlaceIsCell(w, base, prog, i, repl, m);
      AtStep(w, base, prog, i, m);
      var s, s' := At(w, base, prog, i, m), At(w, base, prog, n, m);
      CellPrefix(w, s.env, s'.env, p);
      assert s'.env[..|s.env|][v] == s'.env[v];
      assert s.env[v] == s.env[prog[i].val];
    }
  }

  /** The elements a new array is built from are its first content. */
  lemma ArraySets(base: nat, prog: seq<Op>, i: nat, repl: map<Id, Id>, k: nat)
    requires WellFormed(base, prog) && i < |prog| && ReplOk(base, prog, i, repl) && prog[i].NewArray?
    requires k < |prog[i].elems|
    ensures CellIs(base, prog, i + 1, ElemPlace(base + i, k), Translate(repl, prog[i].elems[k]))
  {
    var n := i + 1;
    var v := Translate(repl, prog[i].elems[k]);
    assert OpOk(base, prog, i);
    DefinedArgs(prog[i], base + i);
    TranslateEq(base, prog, i, repl, prog[i].elems[k]);
    forall w: World, m: Machine | |m.env| == base
      ensures At(w, base, prog, n, m).cells(CellAt(w, At(w, base, prog, n, m).env, ElemPlace(base + i, k))) ==
          At(w, base, prog, n, m).env[v]
    {
      AtStep(w, base, prog, i, m);
      var s, s' := At(w, base, prog, i, m), At(w, base, prog, n, m);
      assert s'.env[..|s.env|][v] == s'.env[v];
    }
  }

  lemma GlobalRead(base: nat, prog: seq<Op>, i: nat)
    requires WellFormed(base, prog) && i < |prog| && prog[i].ReadGlobal?
    ensures GlobalIs(base, prog, i + 1, prog[i].name, base + i)
    ensures forall v: Id :: GlobalIs(base, prog, i, prog[i].name, v) ==> EnvEq(base, prog, i + 1, base + i, v)
  {
    var n := i + 1;
    forall w: World, m: Machine | |m.env| == base
      ensures At(w, base, prog, n, m).globals(prog[i].name) == At(w, base, prog, n, m).env[base + i]
    {
      AtStep(w, base, prog, i, m);
    }
    forall v: Id | GlobalIs(base, prog, i, prog[i].name, v) ensures EnvEq(base, prog, i + 1, base + i, v) {
      forall w: World, m: Machine | |m.env| == base
        ensures At(w, base, prog, n, m).env[base + i] == At(w, base, prog, n, m).env[v]
      {
        AtStep(w, base, prog, i, m);
        assert At(w, base, prog, n, m).env[..base + i][v] == At(w, base, prog, n, m).env[v];
      }
    }
  }

  lemma GlobalWritten(base: nat, prog: seq<Op>, i: nat, repl: map<Id, Id>)
    requires WellFormed(base, prog) && i < |prog| && ReplOk(base, prog, i, repl) && prog[i].WriteGlobal?
    ensures GlobalIs(base, prog, i + 1, prog[i].name, Translate(repl, prog[i].val))
  {
    var n := i + 1;
    var v := Translate(repl, prog[i].val);
    assert OpOk(base, prog, i);
    DefinedArgs(prog[i], base + i);
    TranslateEq(base, prog, i, repl, prog[i].val);
    forall w: World, m: Machine | |m.env| == base
      ensures At(w, base, prog, n, m).globals(prog[i].name) == At(w, base, prog, n, m).env[v]
    {
      AtStep(w, base, prog, i, m);
      var s, s' := At(w, base, prog, i, m), At(w, base, prog, n, m);
      assert s'.env[..|s.env|][v] == s'.env[v];
      assert s.env[v] == s.env[prog[i].val];
    }
  }

  /** A translated address denotes the address really accessed. */
  lemma AddressIsValue(w: World, base: nat, prog: seq<Op>, i: nat, repl: map<Id, Id>, v: Id, m: Machine)
    requires WellFormed(base, prog) && i <= |prog| && ReplOk(base, prog, i, repl) && v < base + i && |m.env| == base
    ensures var a := AddressOf(base, prog, Translate(repl, v));
            (a.ByValue? ==> a.v < base + i) &&
              AddressValue(At(w, base, prog, i, m).env, a) == At(w, base, prog, i, m).env[v]
  {
    TranslateEq(base, prog, i, repl, v);
    if IsConst(base, prog, Translate(repl, v)) { ConstValue(w, base, prog, i, Translate(repl, v), m); }
  }

  lemma AddressDefined(base: nat, prog: seq<Op>, i: nat, repl: map<Id, Id>, v: Id)
    requires WellFormed(base, prog) && i <= |prog| && ReplOk(base, prog, i, repl) && v < base + i
    ensures var a := AddressOf(base, prog, Translate(repl, v)); a.ByValue? ==> a.v < base + i
  {
    TranslateEq(base, prog, i, repl, v);
  }

  lemma AddressPrefix(env: seq<int>, env': seq<int>, a: Address)
    requires |env| <= |env'| && env'[..|env|] == env && (a.ByValue? ==> a.v < |env|)
    ensures AddressValue(env, a) == AddressValue(env', a)
  {
    if a.ByValue? { assert env'[..|env|][a.v] == env'[a.v]; }
  }

  lemma LoadRead(base: nat, prog: seq<Op>, i: nat, repl: map<Id, Id>)
    requires WellFormed(base, prog) && i < |prog| && ReplOk(base, prog, i, repl) && prog[i].Load?
    ensures var a := AddressOf(base, prog, Translate(repl, prog[i].addr));
            && RamIs(base, prog, i + 1, a, base + i)
            && forall v: Id :: RamIs(base, prog, i, a, v) ==> EnvEq(base, prog, i + 1, base + i, v)
  {
    var n := i + 1;
    assert OpOk(base, prog, i);
    DefinedArgs(prog[i], base + i);
    var a := AddressOf(base, prog, Translate(repl, prog[i].addr));
    AddressDefined(base, prog, i, repl, prog[i].addr);
    forall w: World, m: Machine | |m.env| == base
      ensures At(w, base, prog, n, m).ram(AddressValue(At(w, base, prog, n, m).env, a)) ==
          At(w, base, prog, n, m).env[base + i]
    {
      AtStep(w, base, prog, i, m);
      AddressIsValue(w, base, prog, i, repl, prog[i].addr, m);
      AddressPrefix(At(w, base, prog, i, m).env, At(w, base, prog, n, m).env, a);
    }
    forall v: Id | RamIs(base, prog, i, a, v) ensures EnvEq(base, prog, i + 1, base + i, v) {
      forall w: World, m: Machine | |m.env| == base
        ensures At(w, base, prog, n, m).env[base + i] == At(w, base, prog, n, m).env[v]
      {
        AtStep(w, base, prog, i, m);
        AddressIsValue(w, base, prog, i, repl, prog[i].addr, m);
        assert At(w, base, prog, n, m).env[..base + i][v] == At(w, base, prog, n, m).env[v];
      }
    }
  }

  lemma Stored(base: nat, prog: seq<Op>, i: nat, repl: map<Id, Id>)
    requires WellFormed(base, prog) && i < |prog| && ReplOk(base, prog, i, repl) && prog[i].Store?
    ensures RamIs(base, prog, i + 1, AddressOf(base, prog, Translate(repl, prog[i].addr)), Translate(repl, prog[i].val))
  {
    var n := i + 1;
    assert OpOk(base, prog, i);
    DefinedArgs(prog[i], base + i);
    var a, v := AddressOf(base, prog, Translate(repl, prog[i].addr)), Translate(repl, prog[i].val);
    AddressDefined(base, prog, i, repl, prog[i].addr);
    TranslateEq(base, prog, i, repl, prog[i].val);
    forall w: World, m: Machine | |m.env| == base
      ensures At(w, base, prog, n, m).ram(AddressValue(At(w, base, prog, n, m).env, a)) ==
          At(w, base, prog, n, m).env[v]
    {
      AtStep(w, base, prog, i, m);
      var s, s' := At(w, base, prog, i, m), At(w, base, prog, n, m);
      AddressIsValue(w, base, prog, i, repl, prog[i].addr, m);
      AddressPrefix(s.env, s'.env, a);
      assert s'.env[..|s.env|][v] == s'.env[v];
      assert s.env[v] == s.env[prog[i].val];
    }
  }
}
