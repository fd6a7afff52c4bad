/** Host buffers: field elements as little-endian bytes in row-major order. */
module WitgenBuffer {
  import opened ArrayIndex
  import opened Json
  import opened JsonArray
  import opened WitgenJson

  type Byte = b: nat | b < 256

  function Pow256(n: nat): nat { if n == 0 then 1 else 256 * Pow256(n - 1) }

  function Pow2(n: nat): nat { if n == 0 then 1 else 2 * Pow2(n - 1) }

  /** The number little-endian bytes stand for. */
  function Number(bytes: seq<Byte>): nat {
    if bytes == [] then 0 else Number(bytes[..|bytes| - 1]) + Pow256(|bytes| - 1) * bytes[|bytes| - 1]
  }

  function ElemBytes(bits: nat): nat { (bits + 7) / 8 }

  lemma {:induction false} PowMono(a: nat, b: nat)
    requires a <= b
    ensures Pow2(a) <= Pow2(b)
    decreases b
  {
    if a == b {
    } else {
      PowMono(a, b - 1);
    }
  }

  lemma {:induction false} Pow256Is(n: nat)
    ensures Pow256(n) == Pow2(8 * n)
  {
    if n == 0 {
    } else {
      Pow256Is(n - 1);
      assert Pow2(8 * n) == 2 * Pow2(8 * n - 1) && Pow2(8 * n - 1) == 2 * Pow2(8 * n - 2) &&
          Pow2(8 * n - 2) == 2 * Pow2(8 * n - 3);
      assert Pow2(8 * n - 3) == 2 * Pow2(8 * n - 4) && Pow2(8 * n - 4) == 2 * Pow2(8 * n - 5) &&
          Pow2(8 * n - 5) == 2 * Pow2(8 * n - 6);
      assert Pow2(8 * n - 6) == 2 * Pow2(8 * n - 7) && Pow2(8 * n - 7) == 2 * Pow2(8 * n - 8);
    }
  }

  /** Values of `bits` bits fit in their bytes. */
  lemma BitsFit(v: nat, bits: nat)
    requires v < Pow2(bits)
    ensures v < Pow256(ElemBytes(bits))
  {
    Pow256Is(ElemBytes(bits));
    PowMono(bits, 8 * ElemBytes(bits));
  }

  /** One byte taken off the rest of a value. */
  lemma ByteStep(bytes: seq<Byte>, rest: nat, value: nat)
    requires Number(bytes) + Pow256(|bytes|) * rest == value
    ensures Number(bytes + [rest % 256]) + Pow256(|bytes| + 1) * (rest / 256) == value
  {
    var more := bytes + [rest % 256];
    assert more[..|more| - 1] == bytes;
    SplitByte(Pow256(|bytes|), rest);
  }

  lemma NoBytes(bytes: seq<Byte>, value: nat)
    requires bytes == []
    ensures Number(bytes) + Pow256(0) * value == value
  {}

  lemma SplitByte(pow: nat, rest: nat)
    ensures pow * (rest % 256) + 256 * pow * (rest / 256) == pow * rest
  {
    assert rest == 256 * (rest / 256) + rest % 256;
    assert pow * rest == pow * (256 * (rest / 256)) + pow * (rest % 256);
  }

  lemma NothingOver(number: nat, pow: nat, rest: nat, value: nat)
    requires number + pow * rest == value < pow
    ensures rest == 0 && number == value
  {
    if rest > 0 { MulMono(1, rest, pow); }
  }

  /** The slot of element `i`. */
  function Slot(bytes: seq<Byte>, n: nat, i: nat): seq<Byte>
    requires i * n + n <= |bytes|
  {
    bytes[i * n..i * n + n]
  }

  lemma SlotsApart(i: nat, j: nat, n: nat)
    requires i != j
    ensures i * n + n <= j * n || j * n + n <= i * n
  {
    if i < j { MulMono(i + 1, j, n); } else { MulMono(j + 1, i, n); }
  }

  lemma OtherSlot(before: seq<Byte>, after: seq<Byte>, n: nat, i: nat, j: nat)
    requires |before| == |after| && i != j && i * n + n <= |before| && j * n + n <= |before|
    requires forall b :: 0 <= b < |before| && !(i * n <= b < i * n + n) ==> after[b] == before[b]
    ensures Slot(after, n, j) == Slot(before, n, j)
  {
    SlotsApart(i, j, n);
  }

  /** Emitting from dimension `d` on comes to a sub-array whose size does not fit. */
  ghost predicate RowsTooBig(shape: Index, d: nat)
    decreases |shape| - d
  {
    d + 1 < |shape| && (Count(shape[d + 1..]) > SIZE_MAX || (shape[d] > 0 && RowsTooBig(shape, d + 1)))
  }

  /** Never for an array that fits and has no empty dimension. */
  lemma {:induction false} FittingRows(shape: Index, d: nat)
    requires Count(shape) <= SIZE_MAX && forall i :: 0 <= i < |shape| ==> shape[i] > 0
    ensures !RowsTooBig(shape, d)
    decreases |shape| - d
  {
    if d + 1 < |shape| {
      FittingNeverTooBig(shape, d);
      assert shape[d + 1..|shape|] == shape[d + 1..];
      FittingRows(shape, d + 1);
    }
  }

  class BufferPack {
    const isFelt: bool
    const feltBitWidth: nat
    const elemBytes: nat
    const shape: Index
    const storage: array<Byte>

    constructor (isFelt: bool, shape: Index, bits: nat)
      requires Count(shape) <= SIZE_MAX && Count(shape) * ElemBytes(bits) <= SIZE_MAX && shape != []
      requires (isFelt ==> shape == [1])
      ensures Valid() && this.shape == shape && this.feltBitWidth == bits && this.isFelt == isFelt && fresh(storage)
    {
      this.isFelt, this.shape, feltBitWidth, elemBytes := isFelt, shape, bits, ElemBytes(bits);
      storage := new Byte[Count(shape) * ElemBytes(bits)](_ => 0);
    }

    ghost predicate Valid() {
      elemBytes == ElemBytes(feltBitWidth) && storage.Length == Count(shape) * elemBytes <= SIZE_MAX &&
        Count(shape) <= SIZE_MAX && shape != [] && (isFelt ==> shape == [1])
    }

    lemma SlotInside(i: nat)
      requires Valid() && i < Count(shape)
      ensures i * elemBytes + elemBytes <= storage.Length
    {
      RowIn(i, Count(shape), elemBytes);
    }

    /** The element at a flat index. */
    ghost function Elem(i: nat): nat
      requires Valid() && i < Count(shape)
      reads storage
    {
      SlotInside(i);
      Number(Slot(storage[..], elemBytes, i))
    }

    ghost function Elements(): (r: seq<nat>)
      requires Valid()
      reads storage
      ensures |r| == Count(shape) && forall i :: 0 <= i < |r| ==> r[i] == Elem(i)
    {
      seq(Count(shape), i requires 0 <= i < Count(shape) reads storage => Elem(i))
    }

    /** A canonical value in its slot; every other slot is left as it was. */
    method StoreElement(flatIndex: nat, value: nat)
      requires Valid() && flatIndex < Count(shape) && value < Pow2(feltBitWidth)
      modifies storage
      ensures Elem(flatIndex) == value
      ensures forall i :: 0 <= i < Count(shape) && i != flatIndex ==> Elem(i) == old(Elem(i))
    {
      hide Number, Pow256, Pow2, Count;
      SlotInside(flatIndex);
      BitsFit(value, feltBitWidth);
      var byteOffset := flatIndex * elemBytes;
      assert byteOffset <= SIZE_MAX;
      var rest, k := value, 0;
      NoBytes(storage[byteOffset..byteOffset + k], value);
      while k < elemBytes
        invariant k <= elemBytes && Number(storage[byteOffset..byteOffset + k]) + Pow256(k) * rest == value
        invariant forall b ::
            0 <= b < storage.Length && !(byteOffset <= b < byteOffset + k) ==> storage[b] == old(storage[b])
      {
        ByteStep(storage[byteOffset..byteOffset + k], rest, value);
        ghost var done := storage[byteOffset..byteOffset + k];
        storage[byteOffset + k] := rest % 256;
        assert storage[byteOffset..byteOffset + (k + 1)] == done + [rest % 256];
        rest, k := rest / 256, k + 1;
      }
      NothingOver(Number(storage[byteOffset..byteOffset + k]), Pow256(k), rest, value);
      assert Slot(storage[..], elemBytes, flatIndex) == storage[byteOffset..byteOffset + k];
      forall i | 0 <= i < Count(shape) && i != flatIndex ensures Elem(i) == old(Elem(i)) {
        SlotInside(i);
        OtherSlot(old(storage[..]), storage[..], elemBytes, flatIndex, i);
      }
    }

    method LoadElement(flatIndex: nat) returns (value: nat)
      requires Valid() && flatIndex < Count(shape)
      ensures value == Elem(flatIndex)
    {
      SlotInside(flatIndex);
      var byteOffset := flatIndex * elemBytes;
      value := 0;
      var k: nat := 0;
      var pow: nat := 1;
      while k < elemBytes
        invariant k <= elemBytes && pow == Pow256(k) && value == Number(storage[byteOffset..byteOffset + k])
      {
        ghost var more := storage[byteOffset..byteOffset + (k + 1)];
        assert more[..|more| - 1] == storage[byteOffset..byteOffset + k];
        value, pow, k := value + pow * storage[byteOffset + k], 256 * pow, k + 1;
      }
    }

    /** Every element of an input in its slot, or nothing when the count is wrong. */
    method FillInputBuffer(elements: seq<nat>) returns (ok: bool)
      requires Valid() && forall i :: 0 <= i < |elements| ==> elements[i] < Pow2(feltBitWidth)
      requires isFelt ==> |elements| == 1
      modifies storage
      ensures ok <==> |elements| == Count(shape)
      ensures ok ==> Elements() == elements
      ensures !ok ==> storage[..] == old(storage[..])
    {
      if isFelt {
        assert Count(shape) == 1 by { assert shape[1..] == []; }
        StoreElement(0, elements[0]);
        return true;
      }
      if |elements| != Count(shape) { return false; }
      var i := 0;
      while i < |elements|
        invariant i <= |elements| && forall j :: 0 <= j < i ==> Elem(j) == elements[j]
      {
        StoreElement(i, elements[i]);
        i := i + 1;
      }
      return true;
    }

    /** Nested arrays of what the buffer holds, as the serialiser makes them. */
    method BufferToJsonArray(dimIndex: nat, flatOffset: nat) returns (result: Result<Value>)
      requires Valid() && dimIndex < |shape| && flatOffset + Count(shape[dimIndex..]) <= Count(shape)
      ensures result.Ok? ==> result.value == Nest(Elements(), shape[dimIndex..], flatOffset)
      ensures result.Err? <==> RowsTooBig(shape, dimIndex)
      decreases |shape| - dimIndex
    {
      hide Count, Nest, Number;
      ghost var rest := shape[dimIndex..];
      assert rest[1..] == shape[dimIndex + 1..];
      var subArraySize := 1;
      if dimIndex + 1 != |shape| {
        subArraySize := Count(shape[dimIndex + 1..]);
        if subArraySize > SIZE_MAX {
          return Err("execution-engine JSON output");
        }
      } else {
        CountNothing(rest[1..]);
      }
      var items: seq<Value> := [];
      var i := 0;
      while i < shape[dimIndex]
        invariant i <= shape[dimIndex] && |items| == i && (i > 0 ==> !RowsTooBig(shape, dimIndex + 1))
        invariant forall k ::
            0 <= k < i ==>
            flatOffset + k * Count(rest[1..]) + Count(rest[1..]) <= Count(shape) &&
            items[k] == NestItem(Elements(), rest, flatOffset + k * Count(rest[1..]))
      {
        RowFits(rest, i, flatOffset, Count(shape));
        var nextOffset := i * subArraySize + flatOffset;
        assert nextOffset <= SIZE_MAX;
        if dimIndex + 1 == |shape| {
          var element := LoadElement(nextOffset);
          items := items + [FeltToJson(element)];
        } else {
          var subArray := BufferToJsonArray(dimIndex + 1, nextOffset);
          if subArray.Err? { return subArray; }
          items := items + [subArray.value];
        }
        i := i + 1;
      }
      NestItems(Elements(), rest, flatOffset, items);
      return Ok(Array(items));
    }
  }

  /** A buffer for a main input or output, unless its size does not fit the machine's size type. */
  method CreateBufferPack(isFelt: bool, shape: Index, bits: nat) returns (result: Result<BufferPack>)
    requires shape != [] && (isFelt ==> shape == [1])
    ensures result.Ok? <==> Count(shape) <= SIZE_MAX && Count(shape) * ElemBytes(bits) <= SIZE_MAX
    ensures result.Ok? ==>
        fresh(result.value) && fresh(result.value.storage) && result.value.Valid() && result.value.shape == shape &&
        result.value.feltBitWidth == bits && result.value.isFelt == isFelt
  {
    if Count(shape) > SIZE_MAX { return Err("execution-engine buffer storage"); }
    if Count(shape) * ElemBytes(bits) > SIZE_MAX {
      return Err("execution-engine buffer storage would overflow size_t");
    }
    var buffer := new BufferPack(isFelt, shape, bits);
    return Ok(buffer);
  }

  /** A nested array read, stored in a buffer and emitted from there is the canonical form of what was read. */
  method ThroughBuffer(json: Value, shape: Index, p: nat, bits: nat) returns (result: Result<Value>)
    requires 0 < p <= Pow2(bits) && shape != []
    ensures result.Ok? <==>
        Shaped(json, shape, p) && Count(shape) <= SIZE_MAX && Count(shape) * ElemBytes(bits) <= SIZE_MAX &&
        !RowsTooBig(shape, 0)
    ensures result.Ok? ==> result.value == Canonical(json, shape, p) && forall idx: Index :: InShape(shape, idx) ==>
      exists v: nat :: ElementIs(json, idx, p, v) && At(result.value, idx) == Ok(FeltToJson(v))
  {
    hide Count, Flatten, Nest, Canonical, Shaped, RowsTooBig;
    assert shape[0..] == shape;
    FlattenIffShaped(json, shape, p);
    var parsed := ParseArray(json, shape, p, 0);
    if parsed.Err? { return Err(parsed.error); }
    FlattenSize(json, shape, p);
    FlattenBelow(json, shape, p);
    var created := CreateBufferPack(false, shape, bits);
    if created.Err? { return Err(created.error); }
    var buffer := created.value;
    var ok := buffer.FillInputBuffer(parsed.value);
    NestOfFlatten(json, shape, p, parsed.value, 0);
    result := buffer.BufferToJsonArray(0, 0);
    forall idx: Index | InShape(shape, idx)
      ensures exists v: nat :: ElementIs(json, idx, p, v) && At(Canonical(json, shape, p), idx) == Ok(FeltToJson(v))
    {
      CanonicalAt(json, shape, p, idx);
    }
  }
}
