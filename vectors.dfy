/**
 * Abstract stand-ins for the library's vector and matrix classes that the
 * modelled views talk to: real-valued vectors as seq<real>, the one-hot
 * AxisVector, and the dense row-major Matrix.  Only what the views need is
 * given, with the sums that define a dot product and a row gather.
 */
module Vectors {
  import opened Wrappers

  /** Math.min on int. */
  function Min(a: int, b: int): (r: int)
    ensures r <= a && r <= b
    ensures r == a || r == b
  {
    if a < b then a else b
  }

  /** Math.max on int. */
  function Max(a: int, b: int): (r: int)
    ensures r >= a && r >= b
    ensures r == a || r == b
  {
    if a < b then b else a
  }

  /** True when every component of s is zero (AVector.isZero). */
  predicate IsZero(s: seq<real>)
  {
    forall k :: 0 <= k < |s| ==> s[k] == 0.0
  }

  /** The sum of the components (elementSum). */
  function Sum(s: seq<real>): real
  {
    if s == [] then 0.0 else Sum(s[..|s| - 1]) + s[|s| - 1]
  }

  /** The product of the components (elementProduct). */
  function Product(s: seq<real>): real
  {
    if s == [] then 1.0 else Product(s[..|s| - 1]) * s[|s| - 1]
  }

  /** How many components are not zero (nonZeroCount). */
  function NonZeros(s: seq<real>): nat
  {
    if s == [] then 0 else NonZeros(s[..|s| - 1]) + (if s[|s| - 1] != 0.0 then 1 else 0)
  }

  /** The partial dot product: the sum of u[k] * v[k] over lo <= k < hi. */
  function SumProducts(u: seq<real>, v: seq<real>, lo: int, hi: int): real
    requires 0 <= lo && hi <= |u| && hi <= |v|
    decreases hi - lo
  {
    if hi <= lo then 0.0 else SumProducts(u, v, lo, hi - 1) + u[hi - 1] * v[hi - 1]
  }

  /** The dot product of two vectors of equal length. */
  function Dot(u: seq<real>, v: seq<real>): real
    requires |u| == |v|
  {
    SumProducts(u, v, 0, |u|)
  }

  /** One more term of the partial dot product. */
  lemma SumProductsStep(u: seq<real>, v: seq<real>, lo: int, i: int, x: real)
    requires 0 <= lo <= i < |u| && i < |v| && x == u[i]
    ensures SumProducts(u, v, lo, i + 1) == SumProducts(u, v, lo, i) + x * v[i]
  {
  }

  lemma {:induction false} SumProductsSplit(u: seq<real>, v: seq<real>, lo: int, mid: int, hi: int)
    requires 0 <= lo <= mid <= hi <= |u| && hi <= |v|
    ensures SumProducts(u, v, lo, hi) == SumProducts(u, v, lo, mid) + SumProducts(u, v, mid, hi)
    decreases hi
  {
    if hi > mid {
      SumProductsSplit(u, v, lo, mid, hi - 1);
    }
  }

  lemma {:induction false} SumProductsOfZeros(u: seq<real>, v: seq<real>, lo: int, hi: int)
    requires 0 <= lo && hi <= |u| && hi <= |v|
    requires forall k :: lo <= k < hi ==> u[k] == 0.0
    ensures SumProducts(u, v, lo, hi) == 0.0
    decreases hi - lo
  {
    if hi > lo {
      SumProductsOfZeros(u, v, lo, hi - 1);
    }
  }

  /**
   * When u is zero outside [lo, hi), the dot product only needs the terms
   * inside that range: the reason a banded row may skip the rest.
   */
  lemma DotOfSupport(u: seq<real>, v: seq<real>, lo: int, hi: int)
    requires |u| == |v| && 0 <= lo && hi <= |u|
    requires forall k :: 0 <= k < |u| && !(lo <= k < hi) ==> u[k] == 0.0
    ensures Dot(u, v) == SumProducts(u, v, lo, hi)
  {
    if hi <= lo {
      SumProductsOfZeros(u, v, 0, |u|);
      SumProductsOfZeros(u, v, lo, hi);
    } else {
      SumProductsSplit(u, v, 0, lo, |u|);
      SumProductsSplit(u, v, lo, hi, |u|);
      SumProductsOfZeros(u, v, 0, lo);
      SumProductsOfZeros(u, v, hi, |u|);
    }
  }

  /** The one-hot vector of the given length with a 1 at index axis (AxisVector). */
  datatype AxisVector = AxisVector(axis: int, length: nat) {

    function Get(i: int): real
    {
      if i == axis then 1.0 else 0.0
    }

    function Entries(): (s: seq<real>)
      ensures |s| == length
      ensures forall k :: 0 <= k < length ==> s[k] == Get(k)
    {
      seq(length, k => Get(k))
    }
  }

  /** Dotting a one-hot vector with v picks out v at the axis. */
  lemma AxisDot(e: AxisVector, v: seq<real>)
    requires 0 <= e.axis < e.length == |v|
    ensures Dot(e.Entries(), v) == v[e.axis]
  {
    var u := e.Entries();
    DotOfSupport(u, v, e.axis, e.axis + 1);
    assert SumProducts(u, v, e.axis, e.axis + 1) == u[e.axis] * v[e.axis];
  }

  /**
   * i blocks of c entries: i * c, counted block by block, so that proofs
   * about row offsets need no nonlinear arithmetic.
   */
  function Offset(i: nat, c: nat): nat
  {
    if i == 0 then 0 else Offset(i - 1, c) + c
  }

  lemma {:induction false} OffsetIsProduct(i: nat, c: nat)
    ensures Offset(i, c) == i * c
  {
    if i > 0 {
      OffsetIsProduct(i - 1, c);
      assert i * c == (i - 1) * c + c;
    }
  }

  /** Block i of n blocks of c entries ends inside the n blocks. */
  lemma {:induction false} OffsetBlock(i: int, n: nat, c: nat)
    requires 0 <= i < n
    ensures Offset(i, c) + c <= Offset(n, c)
  {
    if i < n - 1 {
      OffsetBlock(i, n - 1, c);
    }
  }

  /** A dense matrix stored row by row in one buffer (mikera.matrixx.Matrix). */
  datatype DenseMatrix = DenseMatrix(rows: nat, cols: nat, data: seq<real>) {

    ghost predicate Valid()
    {
      |data| == Offset(rows, cols)
    }

    /** Where row i starts in the buffer: i * cols (OffsetIsProduct). */
    function RowStart(i: int): (s: nat)
      requires Valid() && 0 <= i < rows
      ensures s + cols <= |data|
    {
      OffsetBlock(i, rows, cols);
      Offset(i, cols)
    }

    /** Row i: the cols consecutive entries starting at i * cols. */
    function Row(i: int): (r: seq<real>)
      requires Valid() && 0 <= i < rows
      ensures |r| == cols
    {
      data[RowStart(i) .. RowStart(i) + cols]
    }

    function Get(i: int, j: int): real
      requires Valid() && 0 <= i < rows && 0 <= j < cols
    {
      Row(i)[j]
    }

    /** get(i, j) on a general matrix: an index error outside the shape. */
    function At(i: int, j: int): (r: Result<real>)
      requires Valid()
      ensures r.Err? <==> !(0 <= i < rows && 0 <= j < cols)
      ensures r.Err? ==> r.error == IndexOutOfBounds
      ensures r.Ok? ==> r.value == Row(i)[j]
    {
      if 0 <= i < rows && 0 <= j < cols then Ok(Get(i, j)) else Err(IndexOutOfBounds)
    }

    function Column(j: int): (c: seq<real>)
      requires Valid() && 0 <= j < cols
      ensures |c| == rows
    {
      seq(rows, k requires 0 <= k < rows => Get(k, j))
    }
  }

  /** The first k indices of p name rows of a matrix with n rows. */
  predicate RowsBefore(p: seq<int>, k: int, n: int)
  {
    k <= |p| && forall j :: 0 <= j < k ==> 0 <= p[j] < n
  }

  /** Every index of p names a row of a matrix with n rows. */
  predicate RowsIn(p: seq<int>, n: int)
  {
    RowsBefore(p, |p|, n)
  }

  /** The buffer whose k-th block of a.cols entries is row p[k] of a, for the first n indices of p. */
  function GatherRows(p: seq<int>, a: DenseMatrix, n: nat): seq<real>
    requires a.Valid() && RowsBefore(p, n, a.rows)
  {
    if n == 0 then [] else GatherRows(p, a, n - 1) + a.Row(p[n - 1])
  }

  /** The gather holds one block of a.cols entries per index. */
  lemma {:induction false} GatherRowsLength(p: seq<int>, a: DenseMatrix, n: nat)
    requires a.Valid() && RowsBefore(p, n, a.rows)
    ensures |GatherRows(p, a, n)| == Offset(n, a.cols)
  {
    if n > 0 {
      GatherRowsLength(p, a, n - 1);
    }
  }

  /** The matrix whose row i is row p[i] of a: left multiplication by the permutation p. */
  function PermuteRows(p: seq<int>, a: DenseMatrix): (r: DenseMatrix)
    requires a.Valid() && RowsIn(p, a.rows)
    ensures r.Valid() && r.rows == |p| && r.cols == a.cols
  {
    GatherRowsLength(p, a, |p|);
    DenseMatrix(|p|, a.cols, GatherRows(p, a, |p|))
  }

  /**
   * What innerProduct yields: the row gather when every index names a row
   * of a; when a has no columns there is nothing to read, so any indices
   * give the empty |p| x 0 matrix; otherwise an index error.
   */
  function PermuteRowsChecked(p: seq<int>, a: DenseMatrix): (r: Result<DenseMatrix>)
    requires a.Valid()
    ensures r.Err? <==> a.cols > 0 && !RowsIn(p, a.rows)
    ensures r.Err? ==> r.error == IndexOutOfBounds
    ensures r.Ok? ==> r.value.Valid() && r.value.rows == |p| && r.value.cols == a.cols
    ensures RowsIn(p, a.rows) ==> r == Ok(PermuteRows(p, a))
  {
    if RowsIn(p, a.rows) then Ok(PermuteRows(p, a))
    else if a.cols == 0 then OffsetIsProduct(|p|, 0); Ok(DenseMatrix(|p|, 0, []))
    else Err(IndexOutOfBounds)
  }

  /** With no columns the gather is the empty matrix, so the two cases above agree. */
  lemma PermuteRowsNoColumns(p: seq<int>, a: DenseMatrix)
    requires a.Valid() && a.cols == 0
    ensures PermuteRowsChecked(p, a) == Ok(DenseMatrix(|p|, 0, []))
  {
    if RowsIn(p, a.rows) {
      OffsetIsProduct(|p|, 0);
      assert |PermuteRows(p, a).data| == 0;
    }
  }

  lemma SliceOfAppend(s: seq<real>, t: seq<real>, k: int, m: int)
    requires 0 <= k <= m <= |s|
    ensures (s + t)[k..m] == s[k..m]
  {
  }

  lemma SliceAfterAppend(s: seq<real>, t: seq<real>)
    ensures (s + t)[|s| .. |s| + |t|] == t
  {
  }

  /** Block i of the gather of the first n indices is row p[i] of a. */
  lemma {:induction false} GatherRowsBlock(p: seq<int>, a: DenseMatrix, n: nat, i: int)
    requires a.Valid() && RowsBefore(p, n, a.rows) && 0 <= i < n
    ensures Offset(i, a.cols) + a.cols <= |GatherRows(p, a, n)|
    ensures GatherRows(p, a, n)[Offset(i, a.cols) .. Offset(i, a.cols) + a.cols] == a.Row(p[i])
  {
    var front := GatherRows(p, a, n - 1);
    assert GatherRows(p, a, n) == front + a.Row(p[n - 1]);
    if i == n - 1 {
      GatherRowsLength(p, a, i);
      SliceAfterAppend(front, a.Row(p[i]));
    } else {
      GatherRowsBlock(p, a, n - 1, i);
      SliceOfAppend(front, a.Row(p[n - 1]), Offset(i, a.cols), Offset(i, a.cols) + a.cols);
    }
  }

  lemma PermuteRowsRow(p: seq<int>, a: DenseMatrix, i: int)
    requires a.Valid() && RowsIn(p, a.rows) && 0 <= i < |p|
    ensures PermuteRows(p, a).Row(i) == a.Row(p[i])
  {
    GatherRowsBlock(p, a, |p|, i);
  }

  /**
   * The gathered matrix is the product of the permutation matrix with
   * rows AxisVector(p[i], n) and a: entry (i, j) is row i dotted with column j.
   */
  lemma PermuteRowsIsProduct(p: seq<int>, a: DenseMatrix, i: int, j: int)
    requires a.Valid() && RowsIn(p, a.rows) && 0 <= i < |p| && 0 <= j < a.cols
    ensures PermuteRows(p, a).Get(i, j) == Dot(AxisVector(p[i], a.rows).Entries(), a.Column(j))
  {
    PermuteRowsRow(p, a, i);
    AxisDot(AxisVector(p[i], a.rows), a.Column(j));
  }

  /** The worked example [2,0,1] applied to [[1,2],[3,4],[5,6]]. */
  lemma PermuteRowsExample()
    ensures PermuteRows([2, 0, 1], DenseMatrix(3, 2, [1.0, 2.0, 3.0, 4.0, 5.0, 6.0]))
         == DenseMatrix(3, 2, [5.0, 6.0, 1.0, 2.0, 3.0, 4.0])
  {
    var a := DenseMatrix(3, 2, [1.0, 2.0, 3.0, 4.0, 5.0, 6.0]);
    var p := [2, 0, 1];
    assert Offset(1, 2) == 2 && Offset(2, 2) == 4 && Offset(3, 2) == 6;
    assert a.Row(0) == [1.0, 2.0] && a.Row(1) == [3.0, 4.0] && a.Row(2) == [5.0, 6.0];
    assert GatherRows(p, a, 1) == [5.0, 6.0];
    assert GatherRows(p, a, 2) == [5.0, 6.0, 1.0, 2.0];
  }
}
