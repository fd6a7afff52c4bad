/** Parsing and serialising shaped arrays, dimension by dimension, with machine-size checks. */
module WitgenJson {
  import opened ArrayIndex
  import opened Json
  import opened JsonArray

  const SIZE_MAX: nat := 0xFFFF_FFFF_FFFF_FFFF

  lemma {:induction false} FirstError(items: seq<Value>, shape: Index, p: nat, n: nat, m: nat)
    requires p > 0 && shape != [] && n <= m <= |items| && FlattenItems(items, shape, p, n).Err?
    ensures FlattenItems(items, shape, p, m) == FlattenItems(items, shape, p, n)
    decreases m
  {
    if n == m {
    } else {
      FirstError(items, shape, p, n, m - 1);
    }
  }

  /** Every element parsed is the canonical representative of the number at its place. */
  lemma ParsedStands(json: Value, shape: Index, p: nat)
    requires p > 0 && Flatten(json, shape, p).Ok?
    ensures forall idx: Index :: InShape(shape, idx) ==>
      Linear(shape, idx) < |Flatten(json, shape, p).value| &&
      ElementIs(json, idx, p, Flatten(json, shape, p).value[Linear(shape, idx)])
  {
    forall idx: Index | InShape(shape, idx)
      ensures Linear(shape, idx) < |Flatten(json, shape, p).value|
      ensures ElementIs(json, idx, p, Flatten(json, shape, p).value[Linear(shape, idx)])
    {
      FlattenAt(json, shape, p, idx);
    }
  }

  /** The elements of a nested array in row-major order. */
  method ParseArray(json: Value, shape: Index, p: nat, dimIndex: nat) returns (result: Result<seq<nat>>)
    requires p > 0 && dimIndex <= |shape|
    ensures result == Flatten(json, shape[dimIndex..], p)
    ensures result.Ok? ==> forall idx: Index :: InShape(shape[dimIndex..], idx) ==>
      Linear(shape[dimIndex..], idx) < |result.value| &&
      ElementIs(json, idx, p, result.value[Linear(shape[dimIndex..], idx)])
    decreases |shape| - dimIndex
  {
    if !json.Array? { return Err("expected JSON array"); }
    if dimIndex >= |shape| { return Err("invalid array shape"); }
    if |json.items| != shape[dimIndex] { return Err("JSON array length does not match LLZK array dimension"); }
    ghost var rest := shape[dimIndex..];
    assert rest[1..] == shape[dimIndex + 1..];
    var elements: seq<nat> := [];
    var i := 0;
    while i < |json.items|
      invariant i <= |json.items| && FlattenItems(json.items, rest, p, i) == Ok(elements)
    {
      var next := i + 1;
      if dimIndex == |shape| - 1 {
        var parsed := ParseFelt(json.items[i], p);
        if parsed.Err? {
          FirstError(json.items, rest, p, next, |json.items|);
          return Err(parsed.error);
        }
        elements := elements + [parsed.value];
      } else {
        var parsed := ParseArray(json.items[i], shape, p, dimIndex + 1);
        if parsed.Err? {
          FirstError(json.items, rest, p, next, |json.items|);
          return parsed;
        }
        elements := elements + parsed.value;
      }
      i := next;
    }
    ParsedStands(json, rest, p);
    return Ok(elements);
  }

  // ---------- sizes ----------

  /** A product of consecutive dimensions after the one at `d` does not fit the machine's size type. */
  ghost predicate TooBig(shape: Index, d: nat) { exists e, k :: d < e <= k <= |shape| && Count(shape[e..k]) > SIZE_MAX }

  lemma {:induction false} CountJoin(a: Index, b: Index)
    ensures Count(a + b) == Count(a) * Count(b)
  {
    if a == [] {
      assert a + b == b;
    } else {
      assert (a + b)[1..] == a[1..] + b;
      CountJoin(a[1..], b);
      MulAssociates(a[0], Count(a[1..]), Count(b));
    }
  }

  lemma MulAssociates(x: nat, y: nat, z: nat)
    ensures x * (y * z) == x * y * z
  {}

  lemma CountAppend(shape: Index, from: nat, to: nat)
    requires from <= to < |shape|
    ensures Count(shape[from..to + 1]) == Count(shape[from..to]) * shape[to]
  {
    assert shape[from..to + 1] == shape[from..to] + [shape[to]];
    CountJoin(shape[from..to], [shape[to]]);
    assert Count([shape[to]]) == shape[to];
  }

  lemma {:induction false} CountPositive(shape: Index)
    requires forall d :: 0 <= d < |shape| ==> shape[d] > 0
    ensures Count(shape) > 0
  {
    if shape == [] {
    } else {
      CountPositive(shape[1..]);
      MulMono(1, shape[0], Count(shape[1..]));
    }
  }

  /** Arrays that fit in memory and have no empty dimension are never too big. */
  lemma FittingNeverTooBig(shape: Index, d: nat)
    requires Count(shape) <= SIZE_MAX && forall i :: 0 <= i < |shape| ==> shape[i] > 0
    ensures !TooBig(shape, d)
  {
    forall e, k | d < e <= k <= |shape| ensures Count(shape[e..k]) <= SIZE_MAX {
      var a, m, b := shape[..e], shape[e..k], shape[k..];
      assert shape == a + (m + b);
      CountJoin(a, m + b);
      CountJoin(m, b);
      CountPositive(a);
      CountPositive(b);
      CountPositive(m);
      MulMono(1, Count(b), Count(m));
      MulMono(1, Count(a), Count(m) * Count(b));
    }
  }

  /** An array without elements can be refused all the same, by dimensions that fit a signed 64-bit integer. */
  lemma EmptyRefused()
    ensures var shape := [1, 0x4000_0000_0000_0000, 4, 0];
            && (forall d :: 0 <= d < |shape| ==> shape[d] < 0x8000_0000_0000_0000)
            && Count(shape) == 0 && Refused(shape, 0)
  {
    var wide := 0x4000_0000_0000_0000;
    var shape := [1, wide, 4, 0];
    assert Count([0]) == 0 && Count([4, 0]) == 0 && Count([wide, 4, 0]) == 0 && Count(shape) == 0 by {
      assert shape[1..] == [wide, 4, 0] && [wide, 4, 0][1..] == [4, 0] && [4, 0][1..] == [0];
    }
    assert shape[1..3] == [wide, 4] && [wide, 4][1..] == [4] && Count([4]) == 4;
    assert Count(shape[1..3]) > SIZE_MAX && RunsOver(shape, 1);
  }

  /** Multiplying the dimensions from `from` on, one by one, leaves the size type on the way. */
  ghost predicate RunsOver(shape: Index, from: nat) {
    exists k :: from <= k <= |shape| && Count(shape[from..k]) > SIZE_MAX
  }

  /** Serialising from dimension `d` on comes to a sub-array whose size runs over. */
  ghost predicate Refused(shape: Index, d: nat)
    decreases |shape| - d
  {
    d + 1 < |shape| && (RunsOver(shape, d + 1) || (shape[d] > 0 && Refused(shape, d + 1)))
  }

  lemma {:induction false} RefusedTooBig(shape: Index, d: nat)
    requires Refused(shape, d)
    ensures TooBig(shape, d)
    decreases |shape| - d
  {
    var from := d + 1;
    if RunsOver(shape, from) {
      var k :| from <= k <= |shape| && Count(shape[from..k]) > SIZE_MAX;
    } else {
      RefusedTooBig(shape, d + 1);
    }
  }

  /** The size of a sub-array, or an error exactly when multiplying it out runs over. */
  method SubArraySize(shape: Index, dimIndex: nat) returns (result: Result<nat>)
    requires dimIndex < |shape|
    ensures result.Ok? ==> result.value == Count(shape[dimIndex + 1..]) <= SIZE_MAX
    ensures result.Err? <==> RunsOver(shape, dimIndex + 1)
  {
    ghost var from := dimIndex + 1;
    var subArraySize, i := 1, dimIndex + 1;
    while i < |shape|
      invariant from <= i <= |shape| && subArraySize == Count(shape[from..i])
      invariant forall k :: from <= k <= i ==> Count(shape[from..k]) <= SIZE_MAX
    {
      CountAppend(shape, from, i);
      if subArraySize * shape[i] > SIZE_MAX {
        assert from <= i + 1 <= |shape| && Count(shape[from..i + 1]) > SIZE_MAX;
        return Err("JSON array output sub-array size would overflow size_t");
      }
      subArraySize := subArraySize * shape[i];
      i := i + 1;
    }
    assert shape[dimIndex + 1..i] == shape[dimIndex + 1..];
    return Ok(subArraySize);
  }

  lemma NestItems(flat: seq<nat>, shape: Index, offset: nat, items: seq<Value>)
    requires shape != [] && offset + Count(shape) <= |flat| && |items| == shape[0]
    requires forall i ::
        0 <= i < shape[0] ==>
        offset + i * Count(shape[1..]) + Count(shape[1..]) <= |flat| &&
        items[i] == NestItem(flat, shape, offset + i * Count(shape[1..]))
    ensures Nest(flat, shape, offset) == Array(items)
  {
    forall i | 0 <= i < shape[0]
      ensures Nest(flat, shape, offset).items[i] == items[i]
    {
      NestAt(flat, shape, offset, i);
    }
    NestIsArray(flat, shape, offset);
    assert Nest(flat, shape, offset).items == items;
  }

  /** Nested arrays from the flat form; the offsets never overflow. */
  method SerializeArray(flat: seq<nat>, shape: Index, dimIndex: nat, flatOffset: nat) returns (result: Result<Value>)
    requires dimIndex < |shape| && flatOffset + Count(shape[dimIndex..]) <= |flat| <= SIZE_MAX
    ensures result.Ok? ==> result.value == Nest(flat, shape[dimIndex..], flatOffset)
    ensures result.Err? <==> Refused(shape, dimIndex)
    decreases |shape| - dimIndex
  {
    hide Count, Nest, RunsOver;
    ghost var rest := shape[dimIndex..];
    assert rest[1..] == shape[dimIndex + 1..];
    var jsonArray: seq<Value> := [];
    var subArraySize := 1;
    if dimIndex != |shape| - 1 {
      var size := SubArraySize(shape, dimIndex);
      if size.Err? { return Err(size.error); }
      subArraySize := size.value;
    } else {
      CountNothing(rest[1..]);
    }
    var i := 0;
    while i < shape[dimIndex]
      invariant i <= shape[dimIndex] && |jsonArray| == i && (i > 0 ==> !Refused(shape, dimIndex + 1))
      invariant forall k ::
          0 <= k < i ==>
          flatOffset + k * Count(rest[1..]) + Count(rest[1..]) <= |flat| &&
          jsonArray[k] == NestItem(flat, rest, flatOffset + k * Count(rest[1..]))
    {
      RowFits(rest, i, flatOffset, |flat|);
      var nextOffset := i * subArraySize + flatOffset;
      assert nextOffset <= SIZE_MAX;
      if dimIndex == |shape| - 1 {
        jsonArray := jsonArray + [FeltToJson(flat[nextOffset])];
      } else {
        var subArray := SerializeArray(flat, shape, dimIndex + 1, nextOffset);
        if subArray.Err? { return subArray; }
        jsonArray := jsonArray + [subArray.value];
      }
      i := i + 1;
    }
    NestItems(flat, rest, flatOffset, jsonArray);
    return Ok(Array(jsonArray));
  }

  lemma CountNothing(shape: Index)
    requires shape == []
    ensures Count(shape) == 1
  {}

  lemma RowFits(shape: Index, i: nat, offset: nat, size: nat)
    requires shape != [] && i < shape[0] && offset + Count(shape) <= size
    ensures offset + i * Count(shape[1..]) + Count(shape[1..]) <= size
  {
    RowIn(i, shape[0], Count(shape[1..]));
  }
}
