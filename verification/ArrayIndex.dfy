/** Row-major positions of multi-dimensional indices. */
module ArrayIndex {
  type Index = seq<nat>

  function Count(shape: Index): nat { if shape == [] then 1 else shape[0] * Count(shape[1..]) }

  predicate InShape(shape: Index, idx: Index) { |idx| == |shape| && forall d :: 0 <= d < |shape| ==> idx[d] < shape[d] }

  /** The position of an index. */
  function Linear(shape: Index, idx: Index): nat
    requires |idx| == |shape|
  {
    if shape == [] then 0 else idx[0] * Count(shape[1..]) + Linear(shape[1..], idx[1..])
  }

  /** The index at a position. */
  function Delinear(shape: Index, k: nat): (idx: Index)
    requires k < Count(shape)
    ensures |idx| == |shape|
  {
    if shape == [] then []
    else
      var n := Count(shape[1..]);
      DivideIn(k, shape[0], n);
      [k / n] + Delinear(shape[1..], k % n)
  }

  lemma DivideIn(k: nat, m: nat, n: nat)
    requires k < m * n
    ensures n > 0 && k / n < m && k == (k / n) * n + k % n
  {
    assert m * 0 == 0;
    if k / n >= m {
      assert (k / n) * n >= m * n by { MulMono(m, k / n, n); }
    }
  }

  lemma MulMono(a: nat, b: nat, n: nat)
    requires a <= b
    ensures a * n <= b * n
  {}

  lemma DivideBack(q: nat, n: nat, r: nat)
    requires r < n
    ensures (q * n + r) / n == q && (q * n + r) % n == r
  {
    var k := q * n + r;
    if k / n > q { MulMono(q + 1, k / n, n); }
    if k / n < q { MulMono(k / n + 1, q, n); }
  }

  lemma RowBelow(a: nat, b: nat, n: nat, r: nat)
    requires a < b && r < n
    ensures a * n + r < b * n
  {
    MulMono(a + 1, b, n);
  }

  lemma {:induction false} LinearInRange(shape: Index, idx: Index)
    requires InShape(shape, idx)
    ensures Linear(shape, idx) < Count(shape)
  {
    if shape == [] {
    } else {
      LinearInRange(shape[1..], idx[1..]);
      RowBelow(idx[0], shape[0], Count(shape[1..]), Linear(shape[1..], idx[1..]));
    }
  }

  lemma {:induction false} DelinearOfLinear(shape: Index, idx: Index)
    requires InShape(shape, idx)
    ensures Linear(shape, idx) < Count(shape) && Delinear(shape, Linear(shape, idx)) == idx
  {
    LinearInRange(shape, idx);
    if shape == [] {
    } else {
      LinearInRange(shape[1..], idx[1..]);
      DelinearOfLinear(shape[1..], idx[1..]);
      DivideBack(idx[0], Count(shape[1..]), Linear(shape[1..], idx[1..]));
    }
  }

  lemma {:induction false} LinearOfDelinear(shape: Index, k: nat)
    requires k < Count(shape)
    ensures InShape(shape, Delinear(shape, k)) && Linear(shape, Delinear(shape, k)) == k
  {
    if shape == [] {
    } else {
      var n := Count(shape[1..]);
      DivideIn(k, shape[0], n);
      LinearOfDelinear(shape[1..], k % n);
      assert Delinear(shape, k)[1..] == Delinear(shape[1..], k % n);
    }
  }

  predicate StartsWith(idx: Index, prefix: Index) {
    |prefix| <= |idx| && forall d :: 0 <= d < |prefix| ==> idx[d] == prefix[d]
  }

  predicate CanOverlap(a: Index, b: Index) { forall d :: 0 <= d < |a| && d < |b| ==> a[d] == b[d] }
}
