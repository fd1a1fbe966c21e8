/**
 * ABandedMatrix: a matrix whose entries may be non-zero only on the
 * diagonals (bands) b = column - row with lowerLimit <= b <= upperLimit.
 * A concrete banded matrix supplies the band vectors; this module derives
 * the tight bandwidths, the structural check, and the row view that
 * synthesises row i from the bands and writes through to them.
 */
module BandedMatrices {
  import opened Wrappers
  import opened Vectors

  /**
   * The number of entries a rows x cols matrix has on diagonal b: the
   * expected length of band b (AMatrix.bandLength).
   */
  function DiagonalLength(rows: nat, cols: nat, b: int): nat
  {
    if b >= 0 then (if b < cols then Min(rows, cols - b) else 0)
    else (if -b < rows then Min(rows + b, cols) else 0)
  }

  /** The (row, column) that position p of band b stands for. */
  function DiagonalEntry(b: int, p: int): (int, int)
  {
    if b >= 0 then (p, p + b) else (p - b, p)
  }

  /** A band has exactly one position for each entry of the matrix on its diagonal. */
  lemma DiagonalLengthCountsEntries(rows: nat, cols: nat, b: int, p: int)
    requires 0 <= p
    ensures p < DiagonalLength(rows, cols, b) <==>
            0 <= DiagonalEntry(b, p).0 < rows && 0 <= DiagonalEntry(b, p).1 < cols
  {
  }

  /** The row view addresses entry (row, i) at band i - row, position min(i, row). */
  lemma PositionAddressesEntry(row: int, i: int)
    ensures DiagonalEntry(i - row, Min(i, row)) == (row, i)
  {
  }

  class BandedMatrix {
    const rows: nat
    const cols: nat
    const lowerLimit: int
    const upperLimit: int
    /** bands[b - lowerLimit] is the vector getBand(b) for lowerLimit <= b <= upperLimit. */
    const bands: seq<array<real>>

    /** One distinct band vector for every band between the limits. */
    ghost predicate Valid()
    {
      |bands| == (if lowerLimit <= upperLimit then upperLimit - lowerLimit + 1 else 0) &&
      forall k, m :: 0 <= k < m < |bands| ==> bands[k] != bands[m]
    }

    /** A concrete banded matrix: its shape, its limits and its band vectors. */
    constructor (rows: nat, cols: nat, lowerLimit: int, upperLimit: int, bands: seq<array<real>>)
      requires |bands| == (if lowerLimit <= upperLimit then upperLimit - lowerLimit + 1 else 0)
      requires forall k, m :: 0 <= k < m < |bands| ==> bands[k] != bands[m]
      ensures Valid()
      ensures this.rows == rows && this.cols == cols
      ensures this.lowerLimit == lowerLimit && this.upperLimit == upperLimit && this.bands == bands
    {
      this.rows := rows;
      this.cols := cols;
      this.lowerLimit := lowerLimit;
      this.upperLimit := upperLimit;
      this.bands := bands;
    }

    /** getBand(b): the stored band; outside the limits, the empty (hence zero) vector. */
    function GetBand(b: int): (r: seq<real>)
      reads bands
      requires Valid()
      ensures lowerLimit <= b <= upperLimit ==> r == bands[b - lowerLimit][..]
      ensures !(lowerLimit <= b <= upperLimit) ==> r == []
    {
      if lowerLimit <= b <= upperLimit then bands[b - lowerLimit][..] else []
    }

    /** getBand(b).unsafeGet(p) for a stored band. */
    function BandGet(b: int, p: int): (r: real)
      reads bands
      requires Valid() && lowerLimit <= b <= upperLimit && 0 <= p < |GetBand(b)|
      ensures r == GetBand(b)[p]
    {
      bands[b - lowerLimit][p]
    }

    /** What validate() checks: the limits fit the shape and every band has its expected length. */
    ghost predicate WellFormed()
      reads bands
      requires Valid()
    {
      lowerLimit > -(rows as int) && upperLimit < cols &&
      forall b :: lowerLimit <= b <= upperLimit ==> |GetBand(b)| == DiagonalLength(rows, cols, b)
    }

    function IsFullyMutable(): (r: bool)
      ensures !r
    {
      false
    }

    /**
     * upperBandwidth(): the largest b in (0, upperLimit] whose band is not
     * all zero, or 0 when there is none.
     */
    method UpperBandwidth() returns (r: int)
      requires Valid()
      ensures 0 <= r
      ensures r > 0 ==> r <= upperLimit && !IsZero(GetBand(r))
      ensures forall b :: r < b <= upperLimit ==> IsZero(GetBand(b))
    {
      var i := upperLimit;
      while i > 0
        invariant forall b :: i < b <= upperLimit ==> IsZero(GetBand(b))
        decreases i
      {
        if !IsZero(GetBand(i)) {
          return i;
        }
        i := i - 1;
      }
      return 0;
    }

    /**
     * lowerBandwidth(): the smallest b in [lowerLimit, 0) whose band is not
     * all zero, or 0 when there is none.
     */
    method LowerBandwidth() returns (r: int)
      requires Valid()
      ensures r <= 0
      ensures r < 0 ==> lowerLimit <= r && !IsZero(GetBand(r))
      ensures forall b :: lowerLimit <= b < r ==> IsZero(GetBand(b))
    {
      var i := lowerLimit;
      while i < 0
        invariant forall b :: lowerLimit <= b < i ==> IsZero(GetBand(b))
        decreases -i
      {
        if !IsZero(GetBand(i)) {
          return i;
        }
        i := i + 1;
      }
      return 0;
    }

    /**
     * validate(): the lower limit is checked first, then the upper limit,
     * then the bands from lowerLimit upwards; the first violation is reported.
     */
    method Validate() returns (r: Outcome)
      requires Valid()
      ensures r.Pass? <==> WellFormed()
      ensures r == Fail(InvalidLowerLimit(lowerLimit)) <==> lowerLimit <= -(rows as int)
      ensures r == Fail(InvalidUpperLimit(upperLimit)) <==> lowerLimit > -(rows as int) && upperLimit >= cols
      ensures r.Fail? ==> r.error.InvalidLowerLimit? || r.error.InvalidUpperLimit? || r.error.InvalidBandLength?
      ensures r.Fail? && r.error.InvalidBandLength? ==>
                lowerLimit > -(rows as int) && upperLimit < cols &&
                lowerLimit <= r.error.band <= upperLimit &&
                |GetBand(r.error.band)| != DiagonalLength(rows, cols, r.error.band) &&
                forall b :: lowerLimit <= b < r.error.band ==> |GetBand(b)| == DiagonalLength(rows, cols, b)
    {
      var minBand := lowerLimit;
      var maxBand := upperLimit;
      if minBand <= -(rows as int) {
        return Fail(InvalidLowerLimit(minBand));
      }
      if maxBand >= cols {
        return Fail(InvalidUpperLimit(maxBand));
      }
      var i := minBand;
      while i <= maxBand
        invariant minBand <= i && (i <= maxBand + 1 || i == minBand)
        invariant forall b :: minBand <= b < i ==> |GetBand(b)| == DiagonalLength(rows, cols, b)
      {
        var v := bands[i - lowerLimit];
        if DiagonalLength(rows, cols, i) != v.Length {
          return Fail(InvalidBandLength(i));
        }
        i := i + 1;
      }
      return Pass;
    }

    /** getRow(row): a fresh view of row row backed by this matrix's bands. */
    method GetRow(row: int) returns (v: BandedMatrixRow)
      requires Valid()
      ensures fresh(v) && v.Valid() && v.owner == this && v.row == row
    {
      v := new BandedMatrixRow(this, row);
    }
  }

  /**
   * BandedMatrixRow: row row of its owner, synthesised on every access.
   * length, lower and upper are the owner's column count and limits,
   * captured when the view is made.
   */
  class BandedMatrixRow {
    const owner: BandedMatrix
    const row: int
    const length: int
    const lower: int
    const upper: int

    ghost predicate Valid()
    {
      owner.Valid() && length == owner.cols &&
      lower == owner.lowerLimit && upper == owner.upperLimit
    }

    constructor (owner: BandedMatrix, row: int)
      requires owner.Valid()
      ensures Valid() && this.owner == owner && this.row == row
    {
      this.owner := owner;
      this.row := row;
      this.length := owner.cols;
      this.lower := owner.lowerLimit;
      this.upper := owner.upperLimit;
    }

    function Length(): (r: int)
      requires Valid()
      ensures r == owner.cols
    {
      length
    }

    /** The view answers as its owner, which is never fully mutable. */
    function IsFullyMutable(): (r: bool)
      ensures !r
    {
      owner.IsFullyMutable()
    }

    /** Column i of this row lies on a stored band. */
    predicate InBand(i: int)
    {
      lower <= i - row <= upper
    }

    /** The position of column i inside its band. */
    function Position(i: int): int
    {
      Min(i, row)
    }

    /** The band position that column i maps to exists (trivially so off the band). */
    ghost predicate Readable(i: int)
      requires Valid()
    {
      InBand(i) ==> 0 <= Position(i) < owner.bands[i - row - lower].Length
    }

    ghost predicate AllReadable()
      requires Valid()
    {
      forall i :: 0 <= i < length ==> Readable(i)
    }

    /** unsafeGet(i): zero off the band, otherwise band i - row at position min(i, row). */
    function UnsafeGet(i: int): (r: real)
      reads owner.bands
      requires Valid() && Readable(i)
      ensures !InBand(i) ==> r == 0.0
      ensures InBand(i) ==> r == owner.GetBand(i - row)[Position(i)]
    {
      var b := i - row;
      if b < lower || b > upper then 0.0 else owner.BandGet(b, Min(i, row))
    }

    /** get(i): fails exactly when i is outside [0, length). */
    function Get(i: int): (r: Result<real>)
      reads owner.bands
      requires Valid() && (0 <= i < length ==> Readable(i))
      ensures r.Err? <==> !(0 <= i < length)
      ensures r.Err? ==> r.error == IndexOutOfBounds
      ensures r.Ok? ==> r.value == UnsafeGet(i)
    {
      if i < 0 || i >= length then Err(IndexOutOfBounds) else Ok(UnsafeGet(i))
    }

    /** The whole row as a vector. */
    ghost function Entries(): (s: seq<real>)
      reads owner.bands
      requires Valid() && AllReadable()
      ensures |s| == length
      ensures forall i :: 0 <= i < length ==> s[i] == UnsafeGet(i)
    {
      RowPrefix(length)
    }

    ghost function RowPrefix(n: int): (s: seq<real>)
      reads owner.bands
      requires Valid() && AllReadable() && 0 <= n <= length
      ensures |s| == n
      ensures forall i :: 0 <= i < n ==> s[i] == UnsafeGet(i)
      decreases n
    {
      if n == 0 then [] else RowPrefix(n - 1) + [UnsafeGet(n - 1)]
    }

    /**
     * The columns dotProduct visits, [max(0, lower + row), min(length - 1, row + upper)]:
     * exactly the columns of the row that lie on a stored band.
     */
    function DotRange(): (range: (int, int))
      ensures forall i :: range.0 <= i <= range.1 <==> 0 <= i < length && InBand(i)
    {
      (Max(0, lower + row), Min(length - 1, row + upper))
    }

    /**
     * The dot product of the row with v only needs the columns dotProduct
     * visits, since every other entry of the row is zero.
     */
    lemma DotOverRange(v: seq<real>)
      requires Valid() && AllReadable() && |v| == length
      ensures DotRange().0 <= DotRange().1 ==>
                Dot(Entries(), v) == SumProducts(Entries(), v, DotRange().0, DotRange().1 + 1)
      ensures DotRange().0 > DotRange().1 ==> Dot(Entries(), v) == 0.0
    {
      var u, lo, hi := Entries(), DotRange().0, DotRange().1;
      assert forall k :: 0 <= k < |u| && !(lo <= k <= hi) ==> u[k] == 0.0;
      if lo <= hi {
        DotOfSupport(u, v, lo, hi + 1);
      } else {
        DotOfSupport(u, v, 0, 0);
      }
    }

    /** Column i on a stored band is read from band i - row at position min(i, row). */
    lemma EntryOnBand(i: int)
      requires Valid() && AllReadable() && 0 <= i < length && InBand(i)
      ensures Readable(i) && 0 <= Min(i, row) < |owner.GetBand(i - row)|
      ensures Entries()[i] == owner.BandGet(i - row, Min(i, row))
    {
    }

    /**
     * dotProduct(v): sums only over the band columns, and that equals the
     * dot product of the whole row with v.
     */
    method DotProduct(v: seq<real>) returns (r: real)
      requires Valid() && AllReadable() && |v| == length
      ensures r == Dot(Entries(), v)
    {
      var range := DotRange();
      var lo, hi := range.0, range.1;
      var result := 0.0;
      if lo <= hi {
        var i := lo;
        while i <= hi
          invariant lo <= i <= hi + 1
          invariant result == SumProducts(Entries(), v, lo, i)
        {
          EntryOnBand(i);
          var x := owner.BandGet(i - row, Min(i, row));
          SumProductsStep(Entries(), v, lo, i, x);
          result := result + x * v[i];
          i := i + 1;
        }
      }
      DotOverRange(v);
      r := result;
    }

    /**
     * unsafeSet(i, value): writes band i - row at position min(i, row); there
     * is no guard, so i must lie on a stored band.
     */
    method UnsafeSet(i: int, value: real)
      requires Valid() && InBand(i) && Readable(i)
      modifies owner.bands
      ensures owner.GetBand(i - row) == old(owner.GetBand(i - row))[Position(i) := value]
      ensures forall b :: b != i - row ==> owner.GetBand(b) == old(owner.GetBand(b))
      ensures UnsafeGet(i) == value
    {
      var b := i - row;
      owner.bands[b - lower][Min(i, row)] := value;
    }

    /** set(i, value): fails, changing nothing, exactly when i is outside [0, length). */
    method Set(i: int, value: real) returns (r: Outcome)
      requires Valid() && (0 <= i < length ==> InBand(i) && Readable(i))
      modifies owner.bands
      ensures r.Fail? <==> !(0 <= i < length)
      ensures r.Fail? ==> r.error == IndexOutOfBounds
      ensures r.Fail? ==> forall b :: owner.GetBand(b) == old(owner.GetBand(b))
      ensures r.Pass? ==> owner.GetBand(i - row) == old(owner.GetBand(i - row))[Position(i) := value]
      ensures r.Pass? ==> forall b :: b != i - row ==> owner.GetBand(b) == old(owner.GetBand(b))
      ensures r.Pass? ==> UnsafeGet(i) == value
    {
      if i < 0 || i >= length {
        return Fail(IndexOutOfBounds);
      }
      UnsafeSet(i, value);
      r := Pass;
    }
  }

  /**
   * Once validate() has passed, every row of the matrix can be read through
   * its view: each column maps to a band position that exists.
   */
  lemma WellFormedRowsReadable(v: BandedMatrixRow)
    requires v.Valid() && v.owner.WellFormed() && 0 <= v.row < v.owner.rows
    ensures v.AllReadable()
  {
    forall i | 0 <= i < v.length && v.InBand(i)
      ensures 0 <= v.Position(i) < v.owner.bands[i - v.row - v.lower].Length
    {
      var b := i - v.row;
      assert |v.owner.GetBand(b)| == DiagonalLength(v.owner.rows, v.owner.cols, b);
      DiagonalLengthCountsEntries(v.owner.rows, v.owner.cols, b, Min(i, v.row));
    }
  }

  /** A 4 x 4 tridiagonal matrix with sub-diagonal 3, diagonal 1 and super-diagonal sup. */
  method Tridiagonal(sup: array<real>) returns (m: BandedMatrix)
    requires sup.Length == 3
    ensures fresh(m) && m.Valid() && m.rows == 4 && m.cols == 4 && m.lowerLimit == -1 && m.upperLimit == 1
    ensures m.GetBand(1) == sup[..] && m.WellFormed()
    ensures m.GetBand(-1) == [3.0, 3.0, 3.0] && m.GetBand(0) == [1.0, 1.0, 1.0, 1.0]
  {
    var sub := new real[3];
    sub[0], sub[1], sub[2] := 3.0, 3.0, 3.0;
    var diag := new real[4];
    diag[0], diag[1], diag[2], diag[3] := 1.0, 1.0, 1.0, 1.0;
    m := new BandedMatrix(4, 4, -1, 1, [sub, diag, sup]);
    assert m.GetBand(-1) == sub[..] && m.GetBand(0) == diag[..];
    forall b | -1 <= b <= 1
      ensures |m.GetBand(b)| == DiagonalLength(4, 4, b)
    {
      assert b == -1 || b == 0 || b == 1;
    }
  }

  /** The tridiagonal example: it validates, with bandwidths 1 and -1. */
  method TridiagonalExample()
  {
    var sup := new real[3];
    sup[0], sup[1], sup[2] := 2.0, 2.0, 2.0;
    var m := Tridiagonal(sup);
    var ok := m.Validate();
    var u := m.UpperBandwidth();
    var l := m.LowerBandwidth();
    assert m.GetBand(1)[0] == 2.0 && m.GetBand(-1)[0] == 3.0;
    assert ok == Pass && u == 1 && l == -1;
  }

  /** With the super-diagonal zeroed the upper bandwidth drops to 0. */
  method ZeroedBandExample()
  {
    var sup := new real[3];
    sup[0], sup[1], sup[2] := 0.0, 0.0, 0.0;
    var m := Tridiagonal(sup);
    var u := m.UpperBandwidth();
    assert IsZero(m.GetBand(1));
    assert u == 0;
  }
}
