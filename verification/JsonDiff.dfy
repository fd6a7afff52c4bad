/** Comparing an expected and an actual JSON value, with a path to every difference. */
module JsonDiff {
  import opened Json

  datatype Step = Key(key: string) | At(index: nat)

  type Path = seq<Step>

  datatype Mismatch = Mismatch(path: Path, message: string)

  // ---------- objects ----------

  /** The position of a key among the fields. */
  function Find(fields: seq<Field>, key: string): (k: nat)
    ensures k <= |fields| && (k < |fields| ==> fields[k].key == key) && forall i :: 0 <= i < k ==> fields[i].key != key
  {
    if fields == [] || fields[0].key == key then 0 else 1 + Find(fields[1..], key)
  }

  predicate Has(fields: seq<Field>, key: string) { Find(fields, key) < |fields| }

  /** Keys are distinct, at every level. */
  predicate Proper(v: Value)
    decreases v
  {
    match v
    case Array(items) => forall i :: 0 <= i < |items| ==> Proper(items[i])
    case Object(fields) => (forall i, j :: 0 <= i < j < |fields| ==> fields[i].key != fields[j].key) &&
      forall i :: 0 <= i < |fields| ==> Proper(fields[i].value)
    case _ => true
  }

  predicate SameKind(a: Value, b: Value) {
    match a
    case Null => b.Null?
    case Bool(_) => b.Bool?
    case Int(_) => b.Int?
    case Str(_) => b.Str?
    case Array(_) => b.Array?
    case Object(_) => b.Object?
  }

  /** Equal up to the order of object fields. */
  predicate Same(a: Value, b: Value)
    decreases a
  {
    match (a, b) {
      case (Array(s), Array(t)) => |s| == |t| && forall i :: 0 <= i < |s| ==> Same(s[i], t[i])
      case (Object(s), Object(t)) =>
        && (forall i :: 0 <= i < |s| ==> Has(t, s[i].key) && Same(s[i].value, t[Find(t, s[i].key)].value))
        && (forall i :: 0 <= i < |t| ==> Has(s, t[i].key))
      case _ => a == b
    }
  }

  ghost predicate FieldsSame(s: seq<Field>, t: seq<Field>, n: nat) {
    forall i :: 0 <= i < n && i < |s| ==> Has(t, s[i].key) && Same(s[i].value, t[Find(t, s[i].key)].value)
  }

  lemma FindOwn(fields: seq<Field>, i: nat)
    requires Proper(Object(fields)) && i < |fields|
    ensures Find(fields, fields[i].key) == i && Proper(fields[i].value)
  {}

  lemma FindSome(fields: seq<Field>, i: nat)
    requires i < |fields|
    ensures Has(fields, fields[i].key)
  {}

  /** What is at the end of a path, if there is something. */
  function Follow(v: Value, path: Path): Result<Value> {
    if path == [] then Ok(v)
    else match (path[0], v) {
      case (Key(key), Object(fields)) => if Has(fields, key) then Follow(fields[Find(fields, key)].value, path[1..])
        else Err("missing key")
      case (At(i), Array(items)) => if i < |items| then Follow(items[i], path[1..]) else Err("out of range")
      case _ => Err("not there")
    }
  }

  /** The values at the end of the path differ, or only one is there. */
  predicate DiffersAt(a: Value, b: Value, path: Path) {
    var x, y := Follow(a, path), Follow(b, path);
    (x.Ok? && y.Ok? && !Same(x.value, y.value)) || (x.Ok? && y.Err?) || (x.Err? && y.Ok?)
  }

  lemma {:induction false} FollowOn(v: Value, path: Path, step: Step)
    ensures Follow(v, path + [step]) == if Follow(v, path).Ok? then Follow(Follow(v, path).value, [step])
        else Follow(v, path)
  {
    if path == [] {
      assert path + [step] == [step];
    } else {
      assert (path + [step])[0] == path[0] && (path + [step])[1..] == path[1..] + [step];
      match (path[0], v) {
        case (Key(key), Object(fields)) => if Has(fields,
          key) { FollowOn(fields[Find(fields, key)].value, path[1..], step); }
        case (At(i), Array(items)) => if i < |items| { FollowOn(items[i], path[1..], step); }
        case _ =>
      }
    }
  }

  lemma FieldAt(root: Value, v: Value, path: Path, key: string)
    requires v.Object? && Follow(root, path) == Ok(v)
    ensures Has(v.fields, key) ==> Follow(root, path + [Key(key)]) == Ok(v.fields[Find(v.fields, key)].value)
    ensures !Has(v.fields, key) ==> Follow(root, path + [Key(key)]).Err?
  {
    FollowOn(root, path, Key(key));
    if Has(v.fields, key) {
      var f := v.fields[Find(v.fields, key)].value;
      assert Follow(v, [Key(key)]) == Follow(f, [Key(key)][1..]) && [Key(key)][1..] == [];
    }
  }

  // ---------- what is a mismatch ----------

  /** The two values differ right at the end of the path `rest`: in kind, in length, in value, or by a key that only one
      of the objects has. */
  predicate Clashes(a: Value, b: Value, rest: Path) {
    if rest == [] then
      !SameKind(a, b) || (a.Array? && |a.items| != |b.items|) || (!a.Array? && !a.Object? && a != b)
    else match (rest[0], a, b) {
      case (At(i), Array(s), Array(t)) => i < |s| && i < |t| && Clashes(s[i], t[i], rest[1..])
      case (Key(key), Object(s), Object(t)) =>
        if Has(s, key) && Has(t, key) then Clashes(s[Find(s, key)].value, t[Find(t, key)].value, rest[1..])
        else rest[1..] == [] && (Has(s, key) || Has(t, key))
      case _ => false
    }
  }

  /** What is wrong there. */
  function MessageAt(a: Value, b: Value, rest: Path): string {
    if rest == [] then
      if !SameKind(a, b) then "type mismatch" else if a.Array? then "array length mismatch" else "value mismatch"
    else match (rest[0], a, b) {
      case (At(i), Array(s), Array(t)) => if i < |s| && i < |t| then MessageAt(s[i], t[i], rest[1..]) else ""
      case (Key(key), Object(s), Object(t)) =>
        if Has(s, key) && Has(t, key) then MessageAt(s[Find(s, key)].value, t[Find(t, key)].value, rest[1..])
        else if Has(s, key) then "missing key"
        else "unexpected key"
      case _ => ""
    }
  }

  ghost predicate Reported(out: seq<Mismatch>, from: nat, path: Path, rest: Path) {
    exists i :: from <= i < |out| && out[i].path == path + rest
  }

  /** The entry names a clash below `path` and says what it is. */
  ghost predicate Names(m: Mismatch, path: Path, a: Value, b: Value, steps: iset<Step>) {
    && path <= m.path && var rest := m.path[|path|..];
    && Clashes(a, b, rest) && m.message == MessageAt(a, b, rest) && (rest == [] || rest[0] in steps)
  }

  /** From entry `from` on, the clashes at `path` itself and behind one of the steps are reported, each with what it is,
      and nothing else is. If no key occurs twice, each is reported once. */
  ghost predicate Exactly(out: seq<Mismatch>, from: nat, path: Path, a: Value, b: Value, steps: iset<Step>) {
    && from <= |out| && (forall i :: from <= i < |out| ==> Names(out[i], path, a, b, steps))
    && (forall rest: Path ::
      Clashes(a, b, rest) && (rest == [] || rest[0] in steps) ==> Reported(out, from, path, rest))
    && (Proper(b) ==> Apart(out, from))
  }

  ghost function Every(): iset<Step> { iset step: Step | step.Key? || step.At? }

  ghost function Known(fields: seq<Field>, n: nat): iset<Step> {
    iset step: Step | step.Key? && Find(fields, step.key) < n
  }

  lemma KnownNext(fields: seq<Field>, i: nat)
    requires i < |fields|
    ensures Known(fields, i + 1) == Known(fields, i) + iset{Key(fields[i].key)} && Find(fields, fields[i].key) <= i
    ensures Proper(Object(fields)) ==> Key(fields[i].key) !in Known(fields, i)
  {
    hide Find;
    var key := fields[i].key;
    FindSome(fields, i);
    assert Find(fields, key) <= i;
    forall step: Step ensures step in Known(fields, i + 1) <==> step in Known(fields, i) || step == Key(key) {
      if step.Key? && Find(fields, step.key) == i { assert step == Key(key); }
    }
  }

  /** What is behind a step is what is below the values it leads to. */
  ghost predicate LeadsTo(a: Value, b: Value, step: Step, x: Value, y: Value) {
    && (Proper(b) ==> Proper(y))
    && forall rest: Path ::
      Clashes(a, b, [step] + rest) == Clashes(x, y, rest) && MessageAt(a, b, [step] + rest) == MessageAt(x, y, rest)
  }

  /** No path is reported twice. */
  ghost predicate Apart(out: seq<Mismatch>, from: nat) {
    forall i, j :: from <= i < j < |out| ==> out[i].path != out[j].path
  }

  lemma StillApart(before: seq<Mismatch>, out: seq<Mismatch>, from: nat, path: Path, a: Value, b: Value,
                   steps: iset<Step>, step: Step, x: Value, y: Value)
    requires Exactly(before, from, path, a, b, steps) && before <= out && step !in steps
    requires Exactly(out, |before|, path + [step], x, y, Every()) && Apart(before, from) && Apart(out, |before|)
    ensures Apart(out, from)
  {
    hide Clashes, MessageAt, Proper;
    forall i, j | from <= i < j < |out| ensures out[i].path != out[j].path {
      if i < |before| {
        assert out[i] == before[i] && Names(before[i], path, a, b, steps);
        if j < |before| {
          assert out[j] == before[j];
        } else {
          assert Names(out[j], path + [step], x, y, Every());
          assert out[j].path[|path|] == step;
        }
      }
    }
  }

  lemma OneApart(before: seq<Mismatch>, out: seq<Mismatch>, from: nat, path: Path, a: Value, b: Value,
                 steps: iset<Step>, step: Step)
    requires Exactly(before, from, path, a, b, steps) && |out| == |before| + 1 && before <= out
    requires out[|before|].path == path + [step] && step !in steps && Apart(before, from)
    ensures Apart(out, from)
  {
    hide Clashes, MessageAt, Proper;
    forall i, j | from <= i < j < |out| ensures out[i].path != out[j].path {
      assert out[i] == before[i] && Names(before[i], path, a, b, steps);
      if j < |before| {
        assert out[j] == before[j];
      } else {
        assert out[j].path[|path|] == step;
      }
    }
  }

  /** What was reported stays reported and named. */
  lemma Kept(before: seq<Mismatch>, out: seq<Mismatch>, from: nat, path: Path, a: Value, b: Value, steps: iset<Step>,
             step: Step)
    requires Exactly(before, from, path, a, b, steps) && before <= out
    ensures forall i :: from <= i < |before| ==> Names(out[i], path, a, b, steps + iset{step})
    ensures forall rest: Path ::
      Clashes(a, b, rest) && (rest == [] || rest[0] in steps) ==> Reported(out, from, path, rest)
  {
    hide Clashes, MessageAt, Proper;
    forall i | from <= i < |before| ensures Names(out[i], path, a, b, steps + iset{step}) {
      assert out[i] == before[i] && Names(before[i], path, a, b, steps);
    }
    forall rest: Path | Clashes(a, b, rest) && (rest == [] || rest[0] in steps)
      ensures Reported(out, from, path, rest)
    {
      var i :| from <= i < |before| && before[i].path == path + rest;
      assert out[i] == before[i];
    }
  }

  lemma Renamed(m: Mismatch, path: Path, a: Value, b: Value, steps: iset<Step>, step: Step, x: Value, y: Value)
    requires Names(m, path + [step], x, y, Every()) && LeadsTo(a, b, step, x, y)
    ensures Names(m, path, a, b, steps + iset{step})
  {
    hide Clashes, MessageAt, Proper;
    assert path <= path + [step];
    var rest := m.path[|path| + 1..];
    assert m.path[|path|..] == [step] + rest && Clashes(a, b, [step] + rest);
  }

  lemma Deeper(before: seq<Mismatch>, out: seq<Mismatch>, from: nat, path: Path, a: Value, b: Value, steps: iset<Step>,
               step: Step, x: Value, y: Value)
    requires Exactly(before, from, path, a, b, steps) && before <= out
    requires Exactly(out, |before|, path + [step], x, y, Every()) && LeadsTo(a, b, step, x, y)
    requires Proper(b) ==> step !in steps
    ensures Exactly(out, from, path, a, b, steps + iset{step})
  {
    hide Clashes, MessageAt, Proper, Names, Apart;
    var all := steps + iset{step};
    Kept(before, out, from, path, a, b, steps, step);
    forall i | |before| <= i < |out| ensures Names(out[i], path, a, b, all) {
      Renamed(out[i], path, a, b, steps, step, x, y);
    }
    forall rest: Path | Clashes(a, b, rest) && (rest == [] || rest[0] in all) ensures Reported(out, from, path, rest) {
      if rest != [] && rest[0] !in steps {
        assert rest == [step] + rest[1..] && Clashes(x, y, rest[1..]);
        assert Reported(out, |before|, path + [step], rest[1..]);
        assert (path + [step]) + rest[1..] == path + rest;
      }
    }
    if Proper(b) {
      StillApart(before, out, from, path, a, b, steps, step, x, y);
    }
  }

  lemma OneMore(before: seq<Mismatch>, out: seq<Mismatch>, from: nat, path: Path, a: Value, b: Value, steps: iset<Step>,
                step: Step, message: string)
    requires Exactly(before, from, path, a, b, steps) && out == before + [Mismatch(path + [step], message)]
    requires forall rest: Path :: Clashes(a, b, [step] + rest) <==> rest == []
    requires message == MessageAt(a, b, [step]) && (Proper(b) ==> step !in steps)
    ensures Exactly(out, from, path, a, b, steps + iset{step})
  {
    hide Clashes, MessageAt, Proper, Apart;
    var all, last := steps + iset{step}, |before|;
    Kept(before, out, from, path, a, b, steps, step);
    assert Names(out[last], path, a, b, all) by {
      assert out[last].path[|path|..] == [step] && [step] + [] == [step];
    }
    hide Names;
    forall rest: Path | Clashes(a, b, rest) && (rest == [] || rest[0] in all) ensures Reported(out, from, path, rest) {
      if rest != [] && rest[0] !in steps {
        assert rest == [step] + rest[1..];
        assert out[last].path == path + rest;
      }
    }
    if Proper(b) {
      OneApart(before, out, from, path, a, b, steps, step);
    }
  }

  /** Steps behind which nothing clashes make no difference. */
  lemma AllSteps(out: seq<Mismatch>, from: nat, path: Path, a: Value, b: Value, steps: iset<Step>)
    requires Exactly(out, from, path, a, b, steps)
    requires forall rest: Path :: rest != [] && Clashes(a, b, rest) ==> rest[0] in steps
    ensures Exactly(out, from, path, a, b, Every())
  {
    hide Clashes, MessageAt, Proper;
    forall i | from <= i < |out| ensures Names(out[i], path, a, b, Every()) {
      assert Names(out[i], path, a, b, steps);
    }
  }

  /** Two values that are not looked into. */
  lemma Leaf(before: seq<Mismatch>, out: seq<Mismatch>, path: Path, a: Value, b: Value)
    requires !SameKind(a, b) || (!a.Array? && !a.Object?)
    requires out == if !SameKind(a, b) then before + [Mismatch(path, "type mismatch")]
             else if a != b then before + [Mismatch(path, "value mismatch")] else before
    ensures Exactly(out, |before|, path, a, b, Every())
  {
    hide Proper;
    assert path + [] == path;
    assert forall rest: Path :: Clashes(a, b, rest) ==> rest == [];
    if |out| > |before| { assert out[|before|].path == path + []; }
  }

  /** Before any element has been compared. */
  lemma Lengths(before: seq<Mismatch>, out: seq<Mismatch>, path: Path, a: Value, b: Value)
    requires a.Array? && b.Array?
    requires out == if |a.items| == |b.items| then before else before + [Mismatch(path, "array length mismatch")]
    ensures Exactly(out, |before|, path, a, b, iset{})
  {
    assert path + [] == path;
    if |a.items| != |b.items| { assert out[|before|].path == path + []; }
  }

  lemma ArraySteps(a: Value, b: Value, steps: iset<Step>, shared: nat)
    requires a.Array? && b.Array? && shared == if |a.items| < |b.items| then |a.items| else |b.items|
    requires forall step :: step in steps <==> step.At? && step.index < shared
    ensures forall rest: Path :: rest != [] && Clashes(a, b, rest) ==> rest[0] in steps
  {}

  lemma ItemLeads(a: Value, b: Value, i: nat)
    requires a.Array? && b.Array? && i < |a.items| && i < |b.items|
    ensures LeadsTo(a, b, At(i), a.items[i], b.items[i])
  {
    forall rest: Path ensures
        && Clashes(a, b, [At(i)] + rest) == Clashes(a.items[i], b.items[i], rest)
        && MessageAt(a, b, [At(i)] + rest) == MessageAt(a.items[i], b.items[i], rest) {
      assert ([At(i)] + rest)[1..] == rest;
    }
  }

  lemma FieldLeads(a: Value, b: Value, key: string)
    requires a.Object? && b.Object? && Has(a.fields, key) && Has(b.fields, key)
    ensures LeadsTo(a, b, Key(key), a.fields[Find(a.fields, key)].value, b.fields[Find(b.fields, key)].value)
  {
    var x, y := a.fields[Find(a.fields, key)].value, b.fields[Find(b.fields, key)].value;
    forall rest: Path ensures
        && Clashes(a, b, [Key(key)] + rest) == Clashes(x, y, rest)
        && MessageAt(a, b, [Key(key)] + rest) == MessageAt(x, y, rest) {
      assert ([Key(key)] + rest)[1..] == rest;
    }
  }

  lemma NothingYet(out: seq<Mismatch>, path: Path, a: Value, b: Value)
    requires a.Object? && b.Object?
    ensures Exactly(out, |out|, path, a, b, Known(a.fields, 0))
  {}

  lemma ObjectSteps(a: Value, b: Value)
    requires a.Object? && b.Object?
    ensures forall rest: Path :: rest != [] && Clashes(a, b, rest) ==>
      rest[0] in Known(a.fields, |a.fields|) + Known(b.fields, |b.fields|)
  {}

  /** A key of one object alone is the whole clash. */
  lemma KeyOfOne(a: Value, b: Value, key: string)
    requires a.Object? && b.Object? && Has(a.fields, key) != Has(b.fields, key)
    ensures forall rest: Path :: Clashes(a, b, [Key(key)] + rest) <==> rest == []
    ensures MessageAt(a, b, [Key(key)]) == if Has(a.fields, key) then "missing key" else "unexpected key"
  {
    forall rest: Path ensures Clashes(a, b, [Key(key)] + rest) <==> rest == [] {
      assert ([Key(key)] + rest)[1..] == rest;
    }
  }

  lemma OneSided(a: Value, b: Value, path: Path)
    requires Follow(a, path).Ok? != Follow(b, path).Ok?
    ensures DiffersAt(a, b, path)
  {}

  // ---------- the difference ----------

  /** Compares the two roots below `path`, collecting mismatches. */
  class Differ {
    const expectedRoot: Value
    const actualRoot: Value
    var out: seq<Mismatch>

    constructor (expected: Value, actual: Value)
      ensures expectedRoot == expected && actualRoot == actual && out == []
    {
      expectedRoot, actualRoot, out := expected, actual, [];
    }

    /** Every mismatch points at a real difference. */
    ghost predicate Valid()
      reads this
    {
      forall i :: 0 <= i < |out| ==> DiffersAt(expectedRoot, actualRoot, out[i].path)
    }

    ghost predicate Here(expected: Value, actual: Value, path: Path) {
      Follow(expectedRoot, path) == Ok(expected) && Follow(actualRoot, path) == Ok(actual)
    }

    method PushMismatch(path: Path, message: string)
      requires Valid() && DiffersAt(expectedRoot, actualRoot, path)
      modifies this
      ensures Valid() && out == old(out) + [Mismatch(path, message)]
    {
      out := out + [Mismatch(path, message)];
    }

    /** Adds nothing exactly when the two values are the same. */
    method DiffJson(expected: Value, actual: Value, path: Path)
      requires Valid() && Here(expected, actual, path) && Proper(expected)
      modifies this
      ensures Valid() && old(out) <= out && (out == old(out) <==> Same(expected, actual))
      ensures Exactly(out, |old(out)|, path, expected, actual, Every())
      decreases expected, 2
    {
      hide Exactly, Clashes, MessageAt, Proper;
      ghost var leaf := !SameKind(expected, actual) || (!expected.Array? && !expected.Object?);
      if !SameKind(expected, actual) {
        PushMismatch(path, "type mismatch");
      } else if expected.Object? {
        DiffObjects(expected, actual, path);
      } else if expected.Array? {
        DiffArrays(expected, actual, path);
      } else if expected != actual {
        PushMismatch(path, "value mismatch");
      }
      if leaf { Leaf(old(out), out, path, expected, actual); }
    }

    method DiffArrays(expected: Value, actual: Value, path: Path)
      requires Valid() && expected.Array? && actual.Array? && Here(expected, actual, path) && Proper(expected)
      modifies this
      ensures Valid() && old(out) <= out && (out == old(out) <==> Same(expected, actual))
      ensures Exactly(out, |old(out)|, path, expected, actual, Every())
      decreases expected, 1
    {
      hide Clashes, MessageAt, Exactly, LeadsTo;
      var s, t := expected.items, actual.items;
      if |s| != |t| { PushMismatch(path, "array length mismatch"); }
      ghost var lengths := out;
      var shared := if |s| < |t| then |s| else |t|;
      var i := 0;
      ghost var steps: iset<Step> := iset{};
      Lengths(old(out), out, path, expected, actual);
      while i < shared
        invariant i <= shared && Valid() && lengths <= out
        invariant forall step :: step in steps <==> step.At? && step.index < i
        invariant Exactly(out, |old(out)|, path, expected, actual, steps)
        invariant (out == lengths <==> forall k :: 0 <= k < i ==> Same(s[k], t[k]))
      {
        FollowOn(expectedRoot, path, At(i));
        FollowOn(actualRoot, path, At(i));
        ghost var before := out;
        DiffJson(s[i], t[i], path + [At(i)]);
        ItemLeads(expected, actual, i);
        Deeper(before, out, |old(out)|, path, expected, actual, steps, At(i), s[i], t[i]);
        steps := steps + iset{At(i)};
        i := i + 1;
      }
      ArraySteps(expected, actual, steps, shared);
      AllSteps(out, |old(out)|, path, expected, actual, steps);
    }

    method DiffObjects(expected: Value, actual: Value, path: Path)
      requires Valid() && expected.Object? && actual.Object? && Here(expected, actual, path) && Proper(expected)
      modifies this
      ensures Valid() && old(out) <= out && (out == old(out) <==> Same(expected, actual))
      ensures Exactly(out, |old(out)|, path, expected, actual, Every())
      decreases expected, 1
    {
      hide DiffersAt, Follow, Proper, Find;
      DiffFields(expected, actual, path);
      UnexpectedKeys(expected, actual, path, |old(out)|);
    }

    method DiffFields(expected: Value, actual: Value, path: Path)
      requires Valid() && expected.Object? && actual.Object? && Here(expected, actual, path) && Proper(expected)
      modifies this
      ensures Valid() && old(out) <= out
      ensures (out == old(out) <==> FieldsSame(expected.fields, actual.fields, |expected.fields|))
      ensures Exactly(out, |old(out)|, path, expected, actual, Known(expected.fields, |expected.fields|))
      decreases expected, 0
    {
      hide DiffersAt, Follow, Same, Find, Exactly, LeadsTo, Clashes, MessageAt, Known;
      var s, t := expected.fields, actual.fields;
      var i := 0;
      NothingYet(out, path, expected, actual);
      while i < |s|
        invariant i <= |s| && Valid() && old(out) <= out && (out == old(out) <==> FieldsSame(s, t, i))
        invariant Exactly(out, |old(out)|, path, expected, actual, Known(s, i))
      {
        var key := s[i].key;
        FieldAt(expectedRoot, expected, path, key);
        FieldAt(actualRoot, actual, path, key);
        FindOwn(s, i);
        KnownNext(s, i);
        ghost var before := out;
        if Has(t, key) {
          DiffJson(s[i].value, t[Find(t, key)].value, path + [Key(key)]);
          FieldLeads(expected, actual, key);
          Deeper(before, out, |old(out)|, path, expected, actual, Known(s, i), Key(key), s[i].value,
                 t[Find(t, key)].value);
        } else {
          OneSided(expectedRoot, actualRoot, path + [Key(key)]);
          PushMismatch(path + [Key(key)], "missing key");
          KeyOfOne(expected, actual, key);
          OneMore(before, out, |old(out)|, path, expected, actual, Known(s, i), Key(key), "missing key");
        }
        i := i + 1;
      }
    }

    method UnexpectedKeys(expected: Value, actual: Value, path: Path, ghost from: nat)
      requires Valid() && expected.Object? && actual.Object? && Here(expected, actual, path)
      requires Exactly(out, from, path, expected, actual, Known(expected.fields, |expected.fields|))
      modifies this
      ensures Valid() && old(out) <= out
      ensures (out == old(out) <==> forall k :: 0 <= k < |actual.fields| ==> Has(expected.fields, actual.fields[k].key))
      ensures Exactly(out, from, path, expected, actual, Every())
    {
      hide DiffersAt, Follow, Find, Exactly, Clashes, MessageAt;
      var s, t := expected.fields, actual.fields;
      var i := 0;
      assert Known(s, |s|) + Known(t, 0) == Known(s, |s|);
      while i < |t|
        invariant i <= |t| && Valid() && old(out) <= out
        invariant (out == old(out) <==> forall k :: 0 <= k < i ==> Has(s, t[k].key))
        invariant Exactly(out, from, path, expected, actual, Known(s, |s|) + Known(t, i))
      {
        var key := t[i].key;
        FieldAt(expectedRoot, expected, path, key);
        FieldAt(actualRoot, actual, path, key);
        FindSome(t, i);
        KnownNext(t, i);
        ghost var before, steps := out, Known(s, |s|) + Known(t, i);
        assert Known(s, |s|) + Known(t, i + 1) == steps + iset{Key(key)};
        if !Has(s, key) {
          OneSided(expectedRoot, actualRoot, path + [Key(key)]);
          PushMismatch(path + [Key(key)], "unexpected key");
          KeyOfOne(expected, actual, key);
          OneMore(before, out, from, path, expected, actual, steps, Key(key), "unexpected key");
        } else {
          assert steps + iset{Key(key)} == steps;
        }
        i := i + 1;
      }
      ObjectSteps(expected, actual);
      AllSteps(out, from, path, expected, actual, Known(s, |s|) + Known(t, |t|));
    }
  }
}
