/** Nested JSON arrays and their flat row-major form. */
module JsonArray {
  import opened ArrayIndex
  import opened Json

  // ---------- flattening ----------

  /** The elements of nested arrays of this shape, or nothing when the nesting or an element is wrong. */
  function Flatten(json: Value, shape: Index, p: nat): Result<seq<nat>>
    requires p > 0
    decreases shape, 0, 0
  {
    if !json.Array? then Err("expected JSON array")
    else if shape == [] then Err("invalid array shape")
    else if |json.items| != shape[0] then Err("JSON array length does not match LLZK array dimension")
    else FlattenItems(json.items, shape, p, |json.items|)
  }

  /** Of the first `n` items. */
  function FlattenItems(items: seq<Value>, shape: Index, p: nat, n: nat): Result<seq<nat>>
    requires p > 0 && shape != [] && n <= |items|
    decreases shape[1..], 1, n
  {
    if n == 0 then Ok([])
    else
      var before := FlattenItems(items, shape, p, n - 1);
      if before.Err? then before
      else
        var item := FlattenItem(items[n - 1], shape, p);
        if item.Err? then item else Ok(before.value + item.value)
  }

  function FlattenItem(item: Value, shape: Index, p: nat): Result<seq<nat>>
    requires p > 0 && shape != []
    decreases shape[1..], 1, 0
  {
    if |shape| == 1 then
      var elem := ParseFelt(item, p);
      if elem.Err? then Err(elem.error) else Ok([elem.value])
    else Flatten(item, shape[1..], p)
  }

  // ---------- what the flat form means ----------

  /** What is found by following an index into nested arrays. */
  function At(json: Value, idx: Index): Result<Value>
    decreases idx
  {
    if idx == [] then Ok(json)
    else if json.Array? && idx[0] < |json.items| then At(json.items[idx[0]], idx[1..])
    else Err("no such element")
  }

  /** At the index is a number, and `v` is its canonical representative. */
  ghost predicate ElementIs(json: Value, idx: Index, p: nat, v: nat)
    requires p > 0
  {
    At(json, idx).Ok? && StandsFor(At(json, idx).value, p, v)
  }

  lemma {:induction false} ItemsSize(items: seq<Value>, shape: Index, p: nat, n: nat)
    requires p > 0 && shape != [] && n <= |items| && FlattenItems(items, shape, p, n).Ok?
    ensures |FlattenItems(items, shape, p, n).value| == n * Count(shape[1..])
    decreases shape[1..], 1, n
  {
    if n == 0 {
    } else {
      ItemsSize(items, shape, p, n - 1);
      if |shape| > 1 { FlattenSize(items[n - 1], shape[1..], p); }
      assert n * Count(shape[1..]) == (n - 1) * Count(shape[1..]) + Count(shape[1..]);
    }
  }

  lemma {:induction false} FlattenSize(json: Value, shape: Index, p: nat)
    requires p > 0 && Flatten(json, shape, p).Ok?
    ensures |Flatten(json, shape, p).value| == Count(shape)
    decreases shape, 0, 0
  {
    ItemsSize(json.items, shape, p, |json.items|);
  }

  lemma {:induction false} ItemsAt(items: seq<Value>, shape: Index, p: nat, n: nat, k: nat, idx: Index)
    requires p > 0 && shape != [] && n <= |items| && FlattenItems(items, shape, p, n).Ok? && k < n
    requires InShape(shape[1..], idx)
    ensures k * Count(shape[1..]) + Linear(shape[1..], idx) < |FlattenItems(items, shape, p, n).value|
    ensures ElementIs(items[k], idx, p,
        FlattenItems(items, shape, p, n).value[k * Count(shape[1..]) + Linear(shape[1..], idx)])
    decreases shape[1..], 1, n
  {
    var m, c, l := n - 1, Count(shape[1..]), Linear(shape[1..], idx);
    ItemsSize(items, shape, p, n);
    ItemsSize(items, shape, p, m);
    LinearInRange(shape[1..], idx);
    RowBelow(k, n, c, l);
    if k < m {
      ItemsAt(items, shape, p, m, k, idx);
    } else if |shape| > 1 {
      FlattenAt(items[k], shape[1..], p, idx);
    } else {
      assert idx == [] && At(items[k], idx) == Ok(items[k]);
      FeltStands(items[k], p);
    }
  }

  /** The element at a multi-dimensional index is at its row-major position. */
  lemma {:induction false} FlattenAt(json: Value, shape: Index, p: nat, idx: Index)
    requires p > 0 && Flatten(json, shape, p).Ok? && InShape(shape, idx)
    ensures Linear(shape, idx) < |Flatten(json, shape, p).value|
    ensures ElementIs(json, idx, p, Flatten(json, shape, p).value[Linear(shape, idx)])
    decreases shape, 0, 0
  {
    ItemsAt(json.items, shape, p, |json.items|, idx[0], idx[1..]);
  }

  // ---------- nesting ----------

  /** Nested arrays of this shape from the elements starting at `offset`. */
  function Nest(flat: seq<nat>, shape: Index, offset: nat): Value
    requires shape != [] && offset + Count(shape) <= |flat|
    decreases shape, 0
  {
    Array(seq(shape[0], i requires 0 <= i < shape[0] => RowIn(i, shape[0], Count(shape[1..]));
      NestItem(flat, shape, offset + i * Count(shape[1..]))))
  }

  function NestItem(flat: seq<nat>, shape: Index, offset: nat): Value
    requires shape != [] && offset + Count(shape[1..]) <= |flat|
    decreases shape[1..], 1
  {
    if |shape| == 1 then FeltToJson(flat[offset]) else Nest(flat, shape[1..], offset)
  }

  lemma RowIn(i: nat, m: nat, n: nat)
    requires i < m
    ensures i * n + n <= m * n
  {
    MulMono(i + 1, m, n);
  }

  // ---------- round trips ----------

  /** Nested exactly as the shape says, with a field element at every end. */
  predicate Shaped(json: Value, shape: Index, p: nat)
    requires p > 0
    decreases shape
  {
    && json.Array? && shape != [] && |json.items| == shape[0]
    && forall i :: 0 <= i < shape[0] ==> if |shape| == 1 then ParseFelt(json.items[i], p).Ok?
      else Shaped(json.items[i], shape[1..], p)
  }

  lemma {:induction false} FlattenIffShaped(json: Value, shape: Index, p: nat)
    requires p > 0
    ensures Flatten(json, shape, p).Ok? <==> Shaped(json, shape, p)
    decreases shape, 0
  {
    if json.Array? && shape != [] && |json.items| == shape[0] {
      forall i | 0 <= i < shape[0]
        ensures FlattenItem(json.items[i], shape, p).Ok? <==>
            if |shape| == 1 then ParseFelt(json.items[i], p).Ok? else Shaped(json.items[i], shape[1..], p)
      {
        if |shape| > 1 { FlattenIffShaped(json.items[i], shape[1..], p); }
      }
      ItemsOk(json.items, shape, p, |json.items|);
    }
  }

  lemma {:induction false} ItemsOk(items: seq<Value>, shape: Index, p: nat, n: nat)
    requires p > 0 && shape != [] && n <= |items|
    ensures FlattenItems(items, shape, p, n).Ok? <==> forall i :: 0 <= i < n ==> FlattenItem(items[i], shape, p).Ok?
  {
    if n == 0 {
    } else {
      ItemsOk(items, shape, p, n - 1);
    }
  }

  /** The same nesting with every element in canonical form. */
  function Canonical(json: Value, shape: Index, p: nat): Value
    requires p > 0 && Shaped(json, shape, p)
    decreases shape
  {
    Array(seq(shape[0], i requires 0 <= i < shape[0] =>
      if |shape| == 1 then FeltToJson(ParseFelt(json.items[i], p).value) else Canonical(json.items[i], shape[1..], p)))
  }

  /** At every index of the canonical form is the canonical text of the number that was there. */
  lemma {:induction false} CanonicalAt(json: Value, shape: Index, p: nat, idx: Index)
    requires p > 0 && Shaped(json, shape, p) && InShape(shape, idx)
    ensures exists v: nat :: ElementIs(json, idx, p, v) && At(Canonical(json, shape, p), idx) == Ok(FeltToJson(v))
    decreases shape
  {
    var i := idx[0];
    var item := Canonical(json, shape, p).items[i];
    assert At(json, idx) == At(json.items[i], idx[1..]) && At(Canonical(json, shape, p), idx) == At(item, idx[1..]);
    if |shape| == 1 {
      assert idx[1..] == [];
      FeltStands(json.items[i], p);
      assert ElementIs(json, idx, p, ParseFelt(json.items[i], p).value);
    } else {
      CanonicalAt(json.items[i], shape[1..], p, idx[1..]);
      var v: nat :| ElementIs(json.items[i], idx[1..], p, v) &&
        At(Canonical(json.items[i], shape[1..], p), idx[1..]) == Ok(FeltToJson(v));
      assert ElementIs(json, idx, p, v);
    }
  }

  lemma {:induction false} ItemSlice(items: seq<Value>, shape: Index, p: nat, n: nat, k: nat, r: nat)
    requires p > 0 && shape != [] && n <= |items| && FlattenItems(items, shape, p, n).Ok? && k < n
    requires r < Count(shape[1..])
    ensures k * Count(shape[1..]) + r < |FlattenItems(items, shape, p, n).value|
    ensures FlattenItem(items[k], shape, p).Ok? && r < |FlattenItem(items[k], shape, p).value|
    ensures FlattenItems(items, shape, p, n).value[k * Count(shape[1..]) + r] ==
        FlattenItem(items[k], shape, p).value[r]
  {
    var m, c := n - 1, Count(shape[1..]);
    ItemsSize(items, shape, p, n);
    ItemsSize(items, shape, p, m);
    RowBelow(k, n, c, r);
    if k < m {
      ItemSlice(items, shape, p, m, k, r);
    } else if |shape| > 1 {
      FlattenSize(items[k], shape[1..], p);
    }
  }

  ghost predicate SliceIs(all: seq<nat>, offset: nat, part: seq<nat>) {
    offset + |part| <= |all| && forall k :: 0 <= k < |part| ==> all[offset + k] == part[k]
  }

  /** Parsing then serialising gives the canonical nested array. */
  lemma {:induction false} NestOfFlatten(json: Value, shape: Index, p: nat, all: seq<nat>, offset: nat)
    requires p > 0 && Shaped(json, shape, p) && Flatten(json, shape, p).Ok?
    requires SliceIs(all, offset, Flatten(json, shape, p).value)
    ensures offset + Count(shape) <= |all| && Nest(all, shape, offset) == Canonical(json, shape, p)
    decreases shape
  {
    var flat, c := Flatten(json, shape, p).value, Count(shape[1..]);
    FlattenSize(json, shape, p);
    forall i | 0 <= i < shape[0]
      ensures offset + i * c + c <= |all| && NestItem(all, shape, offset + i * c) == Canonical(json, shape, p).items[i]
    {
      RowIn(i, shape[0], c);
      ItemSliceIs(json.items, shape, p, all, offset, i);
      if |shape| > 1 {
        NestOfFlatten(json.items[i], shape[1..], p, all, offset + i * c);
      } else {
        assert FlattenItem(json.items[i], shape, p).value[0] == all[offset + i * c];
      }
    }
  }

  lemma ItemSliceIs(items: seq<Value>, shape: Index, p: nat, all: seq<nat>, offset: nat, i: nat)
    requires p > 0 && shape != [] && i < |items| && FlattenItems(items, shape, p, |items|).Ok?
    requires SliceIs(all, offset, FlattenItems(items, shape, p, |items|).value)
    ensures FlattenItem(items[i], shape, p).Ok?
    ensures SliceIs(all, offset + i * Count(shape[1..]), FlattenItem(items[i], shape, p).value)
    ensures |FlattenItem(items[i], shape, p).value| == Count(shape[1..])
  {
    hide FlattenItem, Count;
    var c := Count(shape[1..]);
    ItemsOk(items, shape, p, |items|);
    ItemSize(items[i], shape, p);
    ItemsSize(items, shape, p, |items|);
    RowIn(i, |items|, c);
    forall r | 0 <= r < c
      ensures all[offset + i * c + r] == FlattenItem(items[i], shape, p).value[r]
    {
      ItemSlice(items, shape, p, |items|, i, r);
    }
  }

  lemma ItemSize(item: Value, shape: Index, p: nat)
    requires p > 0 && shape != [] && FlattenItem(item, shape, p).Ok?
    ensures |FlattenItem(item, shape, p).value| == Count(shape[1..])
  {
    if |shape| > 1 { FlattenSize(item, shape[1..], p); }
  }

  ghost predicate AllBelow(flat: seq<nat>, p: nat) { forall k :: 0 <= k < |flat| ==> flat[k] < p }

  /** What is parsed is canonical. */
  lemma {:induction false} FlattenBelow(json: Value, shape: Index, p: nat)
    requires p > 0 && Flatten(json, shape, p).Ok?
    ensures AllBelow(Flatten(json, shape, p).value, p)
    decreases shape, 0, 0
  {
    ItemsBelow(json.items, shape, p, |json.items|);
  }

  lemma {:induction false} ItemsBelow(items: seq<Value>, shape: Index, p: nat, n: nat)
    requires p > 0 && shape != [] && n <= |items| && FlattenItems(items, shape, p, n).Ok?
    ensures AllBelow(FlattenItems(items, shape, p, n).value, p)
    decreases shape[1..], 1, n
  {
    if n == 0 {
    } else {
      ItemsBelow(items, shape, p, n - 1);
      if |shape| > 1 { FlattenBelow(items[n - 1], shape[1..], p); } else { FeltBelow(items[n - 1], p); }
    }
  }

  /** Serialising then parsing gives back the elements. */
  lemma {:induction false} FlattenOfNest(flat: seq<nat>, shape: Index, p: nat, offset: nat)
    requires shape != [] && p > 0 && AllBelow(flat, p) && offset + Count(shape) <= |flat|
    ensures Flatten(Nest(flat, shape, offset), shape, p) == Ok(flat[offset..offset + Count(shape)])
    decreases shape, 0, 0
  {
    NestedItems(flat, shape, p, offset, shape[0]);
  }

  lemma {:induction false} NestedItems(flat: seq<nat>, shape: Index, p: nat, offset: nat, n: nat)
    requires shape != [] && p > 0 && AllBelow(flat, p) && offset + Count(shape) <= |flat| && n <= shape[0]
    ensures n * Count(shape[1..]) <= Count(shape)
    ensures Nest(flat, shape, offset).Array? && |Nest(flat, shape, offset).items| == shape[0]
    ensures FlattenItems(Nest(flat, shape, offset).items, shape, p, n) ==
        Ok(flat[offset..offset + n * Count(shape[1..])])
    decreases shape[1..], 1, n
  {
    hide Count, Nest, FlattenItem;
    var c := Count(shape[1..]);
    RowsIn(shape, n);
    NestIsArray(flat, shape, offset);
    if n > 0 {
      var m := n - 1;
      NestedItems(flat, shape, p, offset, m);
      NestAt(flat, shape, offset, m);
      NestedItem(flat, shape, p, offset + m * c);
      RowNext(m, n, c);
      assert flat[offset..offset + n * c] == flat[offset..offset + m * c] + flat[offset + m * c..offset + m * c + c];
    } else {
      assert n * c == 0 && flat[offset..offset + 0] == [];
    }
  }

  lemma RowsIn(shape: Index, n: nat)
    requires shape != [] && n <= shape[0]
    ensures n * Count(shape[1..]) <= Count(shape)
  {
    MulMono(n, shape[0], Count(shape[1..]));
  }

  lemma RowNext(m: nat, n: nat, c: nat)
    requires n == m + 1
    ensures n * c == m * c + c
  {}

  lemma NestIsArray(flat: seq<nat>, shape: Index, offset: nat)
    requires shape != [] && offset + Count(shape) <= |flat|
    ensures Nest(flat, shape, offset).Array? && |Nest(flat, shape, offset).items| == shape[0]
  {}

  lemma NestAt(flat: seq<nat>, shape: Index, offset: nat, i: nat)
    requires shape != [] && offset + Count(shape) <= |flat| && i < shape[0]
    ensures offset + i * Count(shape[1..]) + Count(shape[1..]) <= |flat|
    ensures Nest(flat, shape, offset).Array? && |Nest(flat, shape, offset).items| == shape[0]
    ensures Nest(flat, shape, offset).items[i] == NestItem(flat, shape, offset + i * Count(shape[1..]))
  {
    RowIn(i, shape[0], Count(shape[1..]));
  }

  lemma {:induction false} NestedItem(flat: seq<nat>, shape: Index, p: nat, offset: nat)
    requires shape != [] && p > 0 && AllBelow(flat, p) && offset + Count(shape[1..]) <= |flat|
    ensures FlattenItem(NestItem(flat, shape, offset), shape, p) == Ok(flat[offset..offset + Count(shape[1..])])
    decreases shape[1..], 1, 0
  {
    if |shape| == 1 {
      FeltRoundTrip(flat[offset], p);
      assert flat[offset..offset + 1] == [flat[offset]];
    } else {
      FlattenOfNest(flat, shape[1..], p, offset);
    }
  }
}
