/**
 * PermutationMatrix: a square matrix held only as an index array perm,
 * where perm[i] is the column of the single 1 in row i (equivalently, the
 * source row that feeds destination row i).  The index array is owned by
 * the matrix and only swapRows / swapColumns change it.
 */
module PermutationMatrices {
  import opened Wrappers
  import opened Vectors

  // ---------------------------------------------------------------------
  // Index sequences and the bijection property

  /** Every entry of p is a position of p. */
  predicate InRange(p: seq<int>)
  {
    forall k :: 0 <= k < |p| ==> 0 <= p[k] < |p|
  }

  /** No two positions of p hold the same entry. */
  predicate Injective(p: seq<int>)
  {
    forall k, m :: 0 <= k < m < |p| ==> p[k] != p[m]
  }

  /** p is a bijection on [0, |p|). */
  predicate IsPermutation(p: seq<int>)
  {
    InRange(p) && Injective(p)
  }

  /** The first position of p that holds v: what Index.find returns when v occurs. */
  function IndexOf(p: seq<int>, v: int): (k: nat)
    requires v in p
    ensures k < |p| && p[k] == v
    ensures forall m :: 0 <= m < k ==> p[m] != v
  {
    if p[0] == v then 0 else 1 + IndexOf(p[1..], v)
  }

  /** s with the entries at positions i and j exchanged (Index.swap). */
  function Swapped(s: seq<int>, i: int, j: int): (r: seq<int>)
    requires 0 <= i < |s| && 0 <= j < |s|
    ensures |r| == |s| && r[i] == s[j] && r[j] == s[i]
    ensures forall k :: 0 <= k < |s| && k != i && k != j ==> r[k] == s[k]
  {
    s[i := s[j]][j := s[i]]
  }

  /** The column relabelling that exchanges columns i and j. */
  function Exchange(i: int, j: int, c: int): int
  {
    if c == i then j else if c == j then i else c
  }

  ghost function Values(p: seq<int>): set<int>
  {
    set k | 0 <= k < |p| :: p[k]
  }

  /** The columns 0 .. n - 1. */
  ghost function Interval(n: int): set<int>
    decreases n
  {
    if n <= 0 then {} else Interval(n - 1) + {n - 1}
  }

  lemma {:induction false} IntervalMembers(n: int)
    ensures forall x :: x in Interval(n) <==> 0 <= x < n
    decreases n
  {
    if n > 0 {
      IntervalMembers(n - 1);
    }
  }

  lemma {:induction false} IntervalSize(n: nat)
    ensures |Interval(n)| == n
  {
    if n > 0 {
      IntervalSize(n - 1);
      IntervalMembers(n - 1);
      assert n - 1 !in Interval(n - 1);
    }
  }

  lemma {:induction false} ValuesSize(p: seq<int>)
    requires Injective(p)
    ensures |Values(p)| == |p|
  {
    if p == [] {
      assert Values(p) == {};
    } else {
      var q := p[..|p| - 1];
      assert Injective(q);
      ValuesSize(q);
      assert Values(p) == Values(q) + {p[|p| - 1]};
      assert p[|p| - 1] !in Values(q);
    }
  }

  lemma SubsetSize(a: set<int>, b: set<int>)
    requires a <= b
    ensures |a| <= |b|
  {
    assert b == a + (b - a);
    assert a * (b - a) == {};
  }

  /** Pigeonhole: in a bijection on [0, n) every column occurs, so find(j) succeeds. */
  lemma EveryColumnOccurs(p: seq<int>, j: int)
    requires IsPermutation(p) && 0 <= j < |p|
    ensures j in p
  {
    if j !in p {
      ValuesSize(p);
      IntervalSize(|p|);
      IntervalMembers(|p|);
      assert Values(p) <= Interval(|p|) - {j};
      SubsetSize(Values(p), Interval(|p|) - {j});
    }
  }

  /** In an injective index array the position found for v is the only one holding v. */
  lemma IndexOfUnique(p: seq<int>, v: int, k: int)
    requires Injective(p) && 0 <= k < |p| && p[k] == v
    ensures v in p && IndexOf(p, v) == k
  {
  }

  // ---------------------------------------------------------------------
  // Properties of the two swaps

  /** swapRows applied twice restores the index array. */
  lemma {:induction false} SwappedTwice(s: seq<int>, i: int, j: int)
    requires 0 <= i < |s| && 0 <= j < |s|
    ensures Swapped(Swapped(s, i, j), i, j) == s
  {
    var t := Swapped(Swapped(s, i, j), i, j);
    assert forall k :: 0 <= k < |s| ==> t[k] == s[k];
  }

  /** Exchanging two positions keeps a bijection a bijection, with the same entries. */
  lemma {:induction false} SwappedIsPermutation(s: seq<int>, i: int, j: int)
    requires IsPermutation(s) && 0 <= i < |s| && 0 <= j < |s|
    ensures IsPermutation(Swapped(s, i, j))
    ensures multiset(Swapped(s, i, j)) == multiset(s)
  {
    var t := Swapped(s, i, j);
    forall k, m | 0 <= k < m < |t|
      ensures t[k] != t[m]
    {
      var k' := if k == i then j else if k == j then i else k;
      var m' := if m == i then j else if m == j then i else m;
      assert t[k] == s[k'] && t[m] == s[m'] && k' != m';
      assert k' < m' ==> s[k'] != s[m'];
      assert m' < k' ==> s[m'] != s[k'];
    }
    assert t == s[i := s[j]][j := s[i]];
  }

  /**
   * The column swap as swapColumns performs it (exchange the positions found
   * for i and j) relabels every row: the 1 that was in column i moves to
   * column j and back, every other row keeps its column.
   */
  lemma SwapColumnsRelabels(p: seq<int>, i: int, j: int, row: int)
    requires Injective(p) && i in p && j in p && 0 <= row < |p|
    ensures Swapped(p, IndexOf(p, i), IndexOf(p, j))[row] == Exchange(i, j, p[row])
  {
    var a, b := IndexOf(p, i), IndexOf(p, j);
    if row != a && row != b {
      IndexOfUnique(p, p[row], row);
    }
  }

  /** swapColumns applied twice restores the index array. */
  lemma SwapColumnsTwice(p: seq<int>, i: int, j: int)
    requires Injective(p) && i in p && j in p
    ensures var q := Swapped(p, IndexOf(p, i), IndexOf(p, j));
            i in q && j in q && Swapped(q, IndexOf(q, i), IndexOf(q, j)) == p
  {
    var a, b := IndexOf(p, i), IndexOf(p, j);
    var q := Swapped(p, a, b);
    assert Injective(q) by {
      forall k, m | 0 <= k < m < |q|
        ensures q[k] != q[m]
      {
        SwapColumnsRelabels(p, i, j, k);
        SwapColumnsRelabels(p, i, j, m);
        assert p[k] != p[m];
      }
    }
    IndexOfUnique(q, i, b);
    IndexOfUnique(q, j, a);
    SwappedTwice(p, a, b);
    if a != b {
      assert Swapped(q, b, a) == Swapped(q, a, b);
    }
  }

  // ---------------------------------------------------------------------
  // Buffer copies used by innerProduct

  /**
   * Copying row p[i] into block i of a buffer that starts with the gather of
   * the first i rows yields a buffer that starts with the gather of i + 1 rows.
   */
  lemma GatherStep(p: seq<int>, a: DenseMatrix, i: int, before: seq<real>, after: seq<real>)
    requires a.Valid() && RowsBefore(p, i + 1, a.rows) && 0 <= i
    requires GatherRows(p, a, i) <= before && Offset(i, a.cols) + a.cols <= |before|
    requires after == before[..Offset(i, a.cols)] + a.Row(p[i]) + before[Offset(i, a.cols) + a.cols ..]
    ensures GatherRows(p, a, i + 1) <= after
  {
    GatherRowsLength(p, a, i);
    assert before[..Offset(i, a.cols)] == GatherRows(p, a, i);
    assert after[..Offset(i, a.cols) + a.cols] == GatherRows(p, a, i + 1);
  }

  /** A buffer of |p| blocks that starts with the gather (when there is anything to gather) is what innerProduct yields. */
  lemma GatherDone(p: seq<int>, a: DenseMatrix, buffer: seq<real>)
    requires a.Valid() && |buffer| == Offset(|p|, a.cols)
    requires a.cols > 0 ==> RowsIn(p, a.rows) && GatherRows(p, a, |p|) <= buffer
    ensures PermuteRowsChecked(p, a) == Ok(DenseMatrix(|p|, a.cols, buffer))
  {
    if a.cols == 0 {
      OffsetIsProduct(|p|, 0);
      assert buffer == [];
      PermuteRowsNoColumns(p, a);
    } else {
      GatherRowsLength(p, a, |p|);
      assert buffer == GatherRows(p, a, |p|);
      assert PermuteRowsChecked(p, a) == Ok(PermuteRows(p, a));
    }
  }

  /**
   * Where row `row` of a rows x c buffer starts, row * c, and whether the c
   * entries from there lie inside the buffer.
   */
  lemma RowStartBounds(row: int, rows: nat, c: nat)
    ensures (0 <= row * c && row * c + c <= Offset(rows, c)) <==> (c == 0 || 0 <= row < rows)
    ensures 0 <= row ==> row * c == Offset(row, c)
  {
    OffsetIsProduct(rows, c);
    if 0 <= row {
      OffsetIsProduct(row, c);
      if row < rows {
        OffsetBlock(row, rows, c);
      } else {
        OffsetBlock(rows, row + 1, c);
      }
    } else if c > 0 {
      OffsetIsProduct(-row, c);
      assert row * c == -((-row) * c);
    }
  }

  /**
   * System.arraycopy(src, srcPos, dest, destPos, length), reading from a
   * buffer value: an index error, copying nothing, when either range leaves
   * its buffer.
   */
  method ArrayCopy(src: seq<real>, srcPos: int, dest: array<real>, destPos: int, length: nat) returns (r: Outcome)
    modifies dest
    ensures r.Fail? <==> !(0 <= srcPos && srcPos + length <= |src| && 0 <= destPos && destPos + length <= dest.Length)
    ensures r.Fail? ==> r.error == IndexOutOfBounds && dest[..] == old(dest[..])
    ensures r.Pass? ==> dest[..] == old(dest[..destPos]) + src[srcPos .. srcPos + length] + old(dest[destPos + length ..])
  {
    if srcPos < 0 || srcPos + length > |src| || destPos < 0 || destPos + length > dest.Length {
      return Fail(IndexOutOfBounds);
    }
    for j := 0 to length
      invariant dest[..destPos] == old(dest[..destPos])
      invariant dest[destPos .. destPos + j] == src[srcPos .. srcPos + j]
      invariant dest[destPos + length ..] == old(dest[destPos + length ..])
    {
      dest[destPos + j] := src[srcPos + j];
    }
    assert dest[..] == dest[..destPos] + dest[destPos .. destPos + length] + dest[destPos + length ..];
    r := Pass;
  }

  /**
   * The inner loop of innerProduct(AMatrix), bounded by j < cols: dest gets
   * row srcRow read by get, which fails on its first read when srcRow is not
   * a row of a.
   */
  method GetRowInto(a: DenseMatrix, srcRow: int, dest: array<real>, destPos: nat) returns (r: Outcome)
    requires a.Valid() && destPos + a.cols <= dest.Length
    modifies dest
    ensures r.Fail? <==> a.cols > 0 && !(0 <= srcRow < a.rows)
    ensures r.Fail? ==> r.error == IndexOutOfBounds
    ensures r.Fail? || a.cols == 0 ==> dest[..] == old(dest[..])
    ensures r.Pass? && a.cols > 0 ==> dest[..] == old(dest[..destPos]) + a.Row(srcRow) + old(dest[destPos + a.cols ..])
  {
    for j := 0 to a.cols
      invariant j > 0 ==> 0 <= srcRow < a.rows
      invariant j == 0 ==> dest[..] == old(dest[..])
      invariant dest[..destPos] == old(dest[..destPos])
      invariant j > 0 ==> dest[destPos .. destPos + j] == a.Row(srcRow)[..j]
      invariant dest[destPos + a.cols ..] == old(dest[destPos + a.cols ..])
    {
      var x := a.At(srcRow, j);
      if x.Err? {
        return Fail(x.error);
      }
      dest[destPos + j] := x.value;
    }
    if a.cols > 0 {
      assert dest[..] == dest[..destPos] + dest[destPos .. destPos + a.cols] + dest[destPos + a.cols ..];
    }
    r := Pass;
  }

  /**
   * One round of innerProduct(Matrix): block i of the result gets row p[i]
   * by a block copy from offset p[i] * cols, which fails when that row is
   * not in a.
   */
  method CopyBlock(ghost p: seq<int>, a: DenseMatrix, i: int, srcRow: int, result: array<real>) returns (r: Outcome)
    requires a.Valid() && 0 <= i < |p| && srcRow == p[i] && result.Length == Offset(|p|, a.cols)
    requires a.cols > 0 ==> RowsBefore(p, i, a.rows) && GatherRows(p, a, i) <= result[..]
    modifies result
    ensures r.Fail? <==> a.cols > 0 && !(0 <= srcRow < a.rows)
    ensures r.Fail? ==> r.error == IndexOutOfBounds
    ensures r.Pass? && a.cols > 0 ==> RowsBefore(p, i + 1, a.rows) && GatherRows(p, a, i + 1) <= result[..]
  {
    var srcIndex := srcRow * a.cols;
    var dstIndex := i * a.cols;
    OffsetIsProduct(i, a.cols);
    OffsetBlock(i, |p|, a.cols);
    RowStartBounds(srcRow, a.rows, a.cols);
    ghost var before := result[..];
    r := ArrayCopy(a.data, srcIndex, result, dstIndex, a.cols);
    if r.Pass? && a.cols > 0 {
      assert a.data[srcIndex .. srcIndex + a.cols] == a.Row(srcRow);
      GatherStep(p, a, i, before, result[..]);
    }
  }

  /** One round of innerProduct(AMatrix): block i of the result gets row p[i] entry by entry. */
  method GetBlock(ghost p: seq<int>, a: DenseMatrix, i: int, srcRow: int, result: array<real>) returns (r: Outcome)
    requires a.Valid() && 0 <= i < |p| && srcRow == p[i] && result.Length == Offset(|p|, a.cols)
    requires a.cols > 0 ==> RowsBefore(p, i, a.rows) && GatherRows(p, a, i) <= result[..]
    modifies result
    ensures r.Fail? <==> a.cols > 0 && !(0 <= srcRow < a.rows)
    ensures r.Fail? ==> r.error == IndexOutOfBounds
    ensures r.Pass? && a.cols > 0 ==> RowsBefore(p, i + 1, a.rows) && GatherRows(p, a, i + 1) <= result[..]
  {
    var dstIndex := i * a.cols;
    OffsetIsProduct(i, a.cols);
    OffsetBlock(i, |p|, a.cols);
    ghost var before := result[..];
    r := GetRowInto(a, srcRow, result, dstIndex);
    if r.Pass? && a.cols > 0 {
      GatherStep(p, a, i, before, result[..]);
    }
  }

  // ---------------------------------------------------------------------
  // The matrix

  class PermutationMatrix {
    const perm: array<int>
    const size: nat

    /** What the class keeps: size is the length of the index array. */
    ghost predicate Valid()
    {
      size == perm.Length
    }

    /** create(Index): copies the index array, so the caller keeps its own. */
    constructor Create(rowPermutations: array<int>)
      ensures Valid() && fresh(perm)
      ensures perm[..] == rowPermutations[..]
    {
      perm := new int[rowPermutations.Length](k reads rowPermutations =>
        if 0 <= k < rowPermutations.Length then rowPermutations[k] else 0);
      size := rowPermutations.Length;
    }

    /** create(int...): builds the index array from the given values. */
    constructor Of(rowPermutations: seq<int>)
      ensures Valid() && fresh(perm)
      ensures perm[..] == rowPermutations
    {
      perm := new int[|rowPermutations|](k =>
        if 0 <= k < |rowPermutations| then rowPermutations[k] else 0);
      size := |rowPermutations|;
    }

    function IsFullyMutable(): (r: bool)
      ensures !r
    {
      false
    }

    function RowCount(): (r: nat)
      requires Valid()
      ensures r == perm.Length
    {
      size
    }

    function ColumnCount(): (r: nat)
      requires Valid()
      ensures r == perm.Length
    {
      size
    }

    /** isSquare(): always true, and indeed the row and column counts agree. */
    function IsSquare(): (r: bool)
      requires Valid()
      ensures r && RowCount() == ColumnCount()
    {
      true
    }

    /** get(row, column): the row is looked up in the index array; the column is not checked. */
    function Get(row: int, column: int): (r: Result<real>)
      reads perm
      requires Valid()
      ensures r.Err? <==> !(0 <= row < size)
      ensures r.Err? ==> r.error == IndexOutOfBounds
      ensures r.Ok? ==> (r.value == 1.0 <==> perm[row] == column)
      ensures r.Ok? ==> (r.value == 0.0 <==> perm[row] != column)
    {
      if 0 <= row < size then Ok(if perm[row] == column then 1.0 else 0.0)
      else Err(IndexOutOfBounds)
    }

    /** set(row, column, value): always refused; no modifies clause, so perm is left as it was. */
    method Set(row: int, column: int, value: real) returns (r: Outcome)
      ensures r == Fail(UnsupportedOperation)
    {
      r := Fail(UnsupportedOperation);
    }

    /** getRow(i): the axis vector of length size at perm[i]. */
    function GetRow(i: int): (r: Result<AxisVector>)
      reads perm
      requires Valid()
      ensures r.Err? <==> !(0 <= i < size)
      ensures r.Ok? ==> r.value.length == size && perm[i] == r.value.axis
    {
      if 0 <= i < size then Ok(AxisVector(perm[i], size)) else Err(IndexOutOfBounds)
    }

    /** getColumn(j): the axis vector of length size at the position find(j). */
    function GetColumn(j: int): (r: AxisVector)
      reads perm
      requires Valid() && j in perm[..]
      ensures r.length == size && 0 <= r.axis < size && perm[r.axis] == j
      ensures forall k :: 0 <= k < r.axis ==> perm[k] != j
    {
      AxisVector(IndexOf(perm[..], j), size)
    }

    /** Index.find(value): linear search for the position holding value. */
    method Find(value: int) returns (k: int)
      requires Valid() && value in perm[..]
      ensures k == IndexOf(perm[..], value)
    {
      k := 0;
      while perm[k] != value
        invariant 0 <= k <= IndexOf(perm[..], value)
        decreases IndexOf(perm[..], value) - k
      {
        k := k + 1;
      }
    }

    /** swapRows(i, j): exchanges perm[i] and perm[j]; nothing happens when i == j. */
    method SwapRows(i: int, j: int)
      requires Valid()
      requires i == j || (0 <= i < size && 0 <= j < size)
      modifies perm
      ensures i == j ==> perm[..] == old(perm[..])
      ensures i != j ==> perm[..] == Swapped(old(perm[..]), i, j)
    {
      if i != j {
        perm[i], perm[j] := perm[j], perm[i];
      }
    }

    /**
     * swapColumns(i, j): exchanges the positions a = find(i) and b = find(j),
     * after which perm[a] == j and perm[b] == i; nothing happens when i == j.
     */
    method SwapColumns(i: int, j: int)
      requires Valid()
      requires i == j || (i in perm[..] && j in perm[..])
      modifies perm
      ensures i == j ==> perm[..] == old(perm[..])
      ensures i != j ==> perm[..] == Swapped(old(perm[..]), IndexOf(old(perm[..]), i), IndexOf(old(perm[..]), j))
      ensures i != j ==> perm[IndexOf(old(perm[..]), i)] == j && perm[IndexOf(old(perm[..]), j)] == i
    {
      if i != j {
        var a := Find(i);
        var b := Find(j);
        perm[a], perm[b] := perm[b], perm[a];
      }
    }

    /** transform(source, dest): dest[i] = source[perm[i]], the permutation applied to a vector. */
    method Transform(source: seq<real>, dest: array<real>)
      requires Valid() && InRange(perm[..])
      requires dest.Length == size && |source| == size
      modifies dest
      ensures forall i :: 0 <= i < size ==> dest[i] == source[perm[i]]
    {
      for i := 0 to size
        invariant forall k :: 0 <= k < i ==> dest[k] == source[perm[k]]
      {
        dest[i] := source[perm[i]];
      }
    }

    /**
     * innerProduct(Matrix): a size x cc matrix whose row i is row perm[i] of a,
     * filled one block copy per row; a copy from a row a lacks fails.
     */
    method InnerProduct(a: DenseMatrix) returns (r: Result<DenseMatrix>)
      requires Valid() && a.Valid()
      ensures r == PermuteRowsChecked(perm[..], a)
    {
      var cc := a.cols;
      var result := new real[Offset(size, cc)];  // Matrix.create(size, cc): size * cc entries
      ghost var p := perm[..];
      for i := 0 to size
        invariant cc > 0 ==> RowsBefore(p, i, a.rows) && GatherRows(p, a, i) <= result[..]
      {
        var ok := CopyBlock(p, a, i, perm[i], result);
        if ok.Fail? {
          return Err(ok.error);
        }
      }
      GatherDone(p, a, result[..]);
      r := Ok(DenseMatrix(size, cc, result[..]));
    }

    /** innerProduct(AMatrix) with the inner loop bounded by j < cc, reading a entry by entry. */
    method InnerProductGeneric(a: DenseMatrix) returns (r: Result<DenseMatrix>)
      requires Valid() && a.Valid()
      ensures r == PermuteRowsChecked(perm[..], a)
    {
      var cc := a.cols;
      var result := new real[Offset(size, cc)];  // Matrix.create(size, cc): size * cc entries
      ghost var p := perm[..];
      for i := 0 to size
        invariant cc > 0 ==> RowsBefore(p, i, a.rows) && GatherRows(p, a, i) <= result[..]
      {
        var ok := GetBlock(p, a, i, perm[i], result);
        if ok.Fail? {
          return Err(ok.error);
        }
      }
      GatherDone(p, a, result[..]);
      r := Ok(DenseMatrix(size, cc, result[..]));
    }

    /**
     * innerProduct(AMatrix) as written: the inner loop tests i < cc instead of
     * j < cc, so once row 0 is read the next read a.get(srcRow, cc) is out of
     * range.  It fails for every non-empty result and succeeds only when the
     * result has no entries at all.
     */
    method InnerProductGenericAsWritten(a: DenseMatrix) returns (r: Result<DenseMatrix>)
      requires Valid() && a.Valid()
      ensures r.Err? <==> size > 0 && a.cols > 0
      ensures r.Err? ==> r.error == IndexOutOfBounds
      ensures r.Ok? ==> r == PermuteRowsChecked(perm[..], a)
    {
      var cc := a.cols;
      var result := new real[size * cc];
      OffsetIsProduct(size, cc);
      var i := 0;
      while i < size
        invariant 0 <= i <= size
        invariant i > 0 ==> cc == 0
      {
        var dstIndex := i * cc;
        var srcRow := perm[i];
        var j := 0;
        while i < cc
          invariant 0 <= j <= cc
          decreases cc - j
        {
          var x := a.At(srcRow, j);
          if x.Err? {
            return Err(x.error);
          }
          OffsetBlock(0, size, cc);
          result[dstIndex + j] := x.value;
          j := j + 1;
        }
        i := i + 1;
      }
      GatherDone(perm[..], a, result[..]);
      r := Ok(DenseMatrix(size, cc, result[..]));
    }

    /** exactClone(): a new matrix over a copy of the index array. */
    method ExactClone() returns (c: PermutationMatrix)
      requires Valid()
      ensures fresh(c) && fresh(c.perm) && c.Valid()
      ensures c.perm[..] == perm[..]
    {
      c := new PermutationMatrix.Create(perm);
    }

    /** validate() as written: only the stored size is compared with the index length. */
    function Validate(): (r: Outcome)
      ensures r.Pass? <==> size == perm.Length
      ensures r.Fail? ==> r.error == InvalidSize
    {
      if size != perm.Length then Fail(InvalidSize) else Pass
    }

    /**
     * validate() as intended: the size check, then the check it omits, that
     * perm holds a bijection on [0, size).
     */
    method ValidatePermutation() returns (r: Outcome)
      ensures r.Pass? <==> size == perm.Length && IsPermutation(perm[..])
      ensures r == Fail(InvalidSize) <==> size != perm.Length
      ensures r.Fail? ==> r.error == InvalidSize || r.error == InvalidPermutation
    {
      r := Validate();
      if r.Fail? {
        return;
      }
      var seen: set<int> := {};
      for i := 0 to size
        invariant forall v :: v in seen <==> v in perm[..i]
        invariant forall k :: 0 <= k < i ==> 0 <= perm[k] < size
        invariant forall k, m :: 0 <= k < m < i ==> perm[k] != perm[m]
      {
        var v := perm[i];
        if v < 0 || v >= size {
          return Fail(InvalidPermutation);
        }
        if v in seen {
          var k :| 0 <= k < i && perm[k] == v;
          assert perm[..][k] == perm[..][i];
          return Fail(InvalidPermutation);
        }
        seen := seen + {v};
        assert perm[..i + 1] == perm[..i] + [v];
      }
      assert perm[..size] == perm[..];
      r := Pass;
    }
  }

  // ---------------------------------------------------------------------
  // What the views promise, stated over a matrix

  /** Each row of a matrix whose entries are in range has exactly one 1, at perm[row]. */
  lemma OneInEachRow(m: PermutationMatrix, row: int)
    requires m.Valid() && InRange(m.perm[..]) && 0 <= row < m.size
    ensures 0 <= m.perm[row] < m.size && m.Get(row, m.perm[row]) == Ok(1.0)
    ensures forall c :: 0 <= c < m.size && c != m.perm[row] ==> m.Get(row, c) == Ok(0.0)
  {
    assert m.perm[..][row] == m.perm[row];
  }

  /** For a bijection each column has exactly one 1 too, in the row find(column). */
  lemma OneInEachColumn(m: PermutationMatrix, column: int)
    requires m.Valid() && IsPermutation(m.perm[..]) && 0 <= column < m.size
    ensures column in m.perm[..]
    ensures var k := IndexOf(m.perm[..], column);
            m.Get(k, column) == Ok(1.0) &&
            forall row :: 0 <= row < m.size && row != k ==> m.Get(row, column) == Ok(0.0)
  {
    EveryColumnOccurs(m.perm[..], column);
    var k := IndexOf(m.perm[..], column);
    forall row | 0 <= row < m.size && row != k
      ensures m.perm[row] != column
    {
      if m.perm[row] == column {
        IndexOfUnique(m.perm[..], column, row);
      }
    }
  }

  /** getRow(i) agrees entry by entry with get(i, c). */
  lemma RowAgreesWithGet(m: PermutationMatrix, i: int, c: int)
    requires m.Valid() && 0 <= i < m.size
    ensures m.GetRow(i).Ok? && m.Get(i, c) == Ok(m.GetRow(i).value.Get(c))
  {
  }

  /** For an injective index array getColumn(j) agrees entry by entry with get(k, j). */
  lemma ColumnAgreesWithGet(m: PermutationMatrix, j: int, k: int)
    requires m.Valid() && Injective(m.perm[..]) && j in m.perm[..] && 0 <= k < m.size
    ensures m.Get(k, j) == Ok(m.GetColumn(j).Get(k))
  {
    if m.perm[k] == j {
      IndexOfUnique(m.perm[..], j, k);
    }
  }

  /** Row i dotted with v is v[perm[i]]: transform is the matrix-vector product. */
  lemma RowDotIsTransform(m: PermutationMatrix, i: int, v: seq<real>)
    requires m.Valid() && InRange(m.perm[..]) && 0 <= i < m.size && |v| == m.size
    ensures m.GetRow(i).Ok? && Dot(m.GetRow(i).value.Entries(), v) == v[m.perm[i]]
  {
    assert m.perm[..][i] == m.perm[i];
    AxisDot(AxisVector(m.perm[i], m.size), v);
  }

  /** For a true permutation every column pair meets swapColumns' precondition. */
  lemma SwapColumnsDefined(m: PermutationMatrix, i: int, j: int)
    requires m.Valid() && IsPermutation(m.perm[..]) && 0 <= i < m.size && 0 <= j < m.size
    ensures i in m.perm[..] && j in m.perm[..]
  {
    EveryColumnOccurs(m.perm[..], i);
    EveryColumnOccurs(m.perm[..], j);
  }

  /** validate() as written accepts the index array [0, 0], which is no permutation. */
  lemma ValidateAcceptsRepeatedIndex(m: PermutationMatrix)
    requires m.Valid() && m.perm[..] == [0, 0]
    ensures m.Validate() == Pass && !IsPermutation(m.perm[..])
  {
    assert m.perm[..][0] == m.perm[..][1];
  }

  /** create copies: swapping rows of the new matrix leaves the caller's array alone. */
  method SwapRowsOfCopy(source: array<int>, i: int, j: int) returns (m: PermutationMatrix)
    requires 0 <= i < source.Length && 0 <= j < source.Length
    ensures fresh(m) && m.Valid()
    ensures m.perm[..] == Swapped(source[..], i, j)
    ensures source[..] == old(source[..])
  {
    m := new PermutationMatrix.Create(source);
    m.SwapRows(i, j);
    assert i == j ==> Swapped(source[..], i, j) == source[..];
  }
}
