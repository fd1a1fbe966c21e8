# Structured matrix views of vectorz, modelled in Dafny

This project models three classes of the vectorz linear-algebra library.
Each class stands for a matrix or vector without storing it densely.

- **`PermutationMatrix`** (`permutation_matrix.dfy`, module `PermutationMatrices`)
  - The matrix is held only as an owned index array `perm`.
  - Row `i` has its single 1 in column `perm[i]`.
  - `get`, `getRow` and `getColumn` read that array.
  - `swapRows` and `swapColumns` change it in place.
  - `transform` and both `innerProduct` overloads apply it as a row gather.
  - `create` and `exactClone` copy it.
  - `validate` checks it.
- **`ABandedMatrix`** (`banded_matrix.dfy`, module `BandedMatrices`)
  - A concrete banded matrix supplies one band vector per diagonal `b = column - row` between `lowerBandwidthLimit` and `upperBandwidthLimit`.
  - The abstract class scans the bands for the tight bandwidths and validates their lengths.
  - It also hands out `BandedMatrixRow`, a row view. The view reads and writes the owner's bands through the position rule `min(i, row)`. Its dot product skips the columns off the band.
- **`Vector0`** (`vector0.dfy`, module `EmptyVectors`): the immutable singleton vector of length zero.

Shared definitions:
- `wrappers.dfy` (module `Wrappers`) turns each Java exception into a value: `Result` or `Outcome` with an `Error`.
- `vectors.dfy` (module `Vectors`) gives the vector and matrix vocabulary the views talk to:
  - sums;
  - dot products;
  - the one-hot `AxisVector`;
  - the row-major dense `Matrix`;
  - `PermuteRows`, the reference definition of a row gather.

How the model is written:
- Java `double` is modelled as `real`.
- Java `int` is modelled as `int`. No operation here can overflow for in-range arguments.
- Each mutable array of the source is an `array` field.
- Each loop of the source is a `while` or `for` loop with its invariants. It is proved against a specification function.

## Model

| member | source | states |
|---|---|---|
| `Vectors.PermuteRowsRow` | src/main/java/mikera/matrixx/impl/PermutationMatrix.java:107-117 | row `i` of the gathered matrix is row `p[i]` of the argument |
| `Vectors.PermuteRowsIsProduct` | src/main/java/mikera/matrixx/impl/PermutationMatrix.java:92-117 | entry `(i, j)` of the gather is row `i` of the permutation matrix (the axis vector at `p[i]`) dotted with column `j`, so `innerProduct` is the matrix product |
| `Vectors.PermuteRowsExample` | src/main/java/mikera/matrixx/impl/PermutationMatrix.java:107-117 | `[2,0,1]` applied to `[[1,2],[3,4],[5,6]]` gives `[[5,6],[1,2],[3,4]]` |
| `Vectors.DotOfSupport` | src/main/java/mikera/matrixx/impl/ABandedMatrix.java:89-105 | when a vector is zero outside `[lo, hi)`, its dot product only needs the terms inside that range |
| `PermutationMatrices.IndexOf` | src/main/java/mikera/matrixx/impl/PermutationMatrix.java:62-65 | the position `find` returns holds the value, and no earlier position does |
| `PermutationMatrices.Swapped` | src/main/java/mikera/matrixx/impl/PermutationMatrix.java:67-72 | `Index.swap`: the two positions exchange their entries and all others keep theirs |
| `PermutationMatrices.EveryColumnOccurs` | src/main/java/mikera/matrixx/impl/PermutationMatrix.java:62-65 | in a bijection on `[0, n)` every column occurs (pigeonhole), so `find` succeeds for every column |
| `PermutationMatrices.IndexOfUnique` | src/main/java/mikera/matrixx/impl/PermutationMatrix.java:62-65 | in an injective array the position found for a value is the only one holding it |
| `PermutationMatrices.SwappedTwice` | src/main/java/mikera/matrixx/impl/PermutationMatrix.java:67-72 | swapping rows `i, j` twice restores the index array |
| `PermutationMatrices.SwappedIsPermutation` | src/main/java/mikera/matrixx/impl/PermutationMatrix.java:67-72 | a row swap keeps a bijection a bijection with the same multiset of entries |
| `PermutationMatrices.SwapColumnsRelabels` | src/main/java/mikera/matrixx/impl/PermutationMatrix.java:74-81 | after `swapColumns(i, j)` every row's column is relabelled: `i` and `j` are exchanged, all others are kept |
| `PermutationMatrices.SwapColumnsTwice` | src/main/java/mikera/matrixx/impl/PermutationMatrix.java:74-81 | swapping columns `i, j` twice restores the index array |
| `Vectors.PermuteRowsChecked` | src/main/java/mikera/matrixx/impl/PermutationMatrix.java:92-117 | the outcome of `innerProduct`: an index error exactly when `a` has columns and some index names no row of `a`; otherwise a `size x cc` matrix, which is the row gather whenever every index names a row |
| `Vectors.PermuteRowsNoColumns` | src/main/java/mikera/matrixx/impl/PermutationMatrix.java:108-116 | with no columns the result is the empty `size x 0` matrix for any indices, which agrees with the row gather where that is defined |
| `PermutationMatrices.RowStartBounds` | src/main/java/mikera/matrixx/impl/PermutationMatrix.java:112-114 | the copy from offset `perm[i] * cc` stays inside `a`'s buffer exactly when `cc == 0` or `perm[i]` is a row of `a`, and then starts at that row |
| `PermutationMatrices.ArrayCopy` | src/main/java/mikera/matrixx/impl/PermutationMatrix.java:114 | `System.arraycopy`: an index error, copying nothing, exactly when a range leaves its buffer; otherwise the destination range gets the source range and the rest of the destination is unchanged |
| `PermutationMatrices.GetRowInto` | src/main/java/mikera/matrixx/impl/PermutationMatrix.java:100-102 | the inner loop, bounded by `j < cc`, puts row `srcRow` at `destPos` entry by entry; an index error, writing nothing, exactly when `cc > 0` and `srcRow` is not a row of `a` |
| `PermutationMatrices.CopyBlock` | src/main/java/mikera/matrixx/impl/PermutationMatrix.java:111-115 | one round of the `innerProduct(Matrix)` loop: fails exactly when `cc > 0` and `perm[i]` is not a row of `a`; otherwise the buffer that started with the gather of `i` rows starts with the gather of `i + 1` rows |
| `PermutationMatrices.GetBlock` | src/main/java/mikera/matrixx/impl/PermutationMatrix.java:97-103 | one round of the corrected `innerProduct(AMatrix)` loop, with the same failure condition and the same growth of the gather |
| `PermutationMatrices.PermutationMatrix.Create` | src/main/java/mikera/matrixx/impl/PermutationMatrix.java:19-21 | `create(Index)` builds over a fresh copy of the caller's array with the same contents |
| `PermutationMatrices.PermutationMatrix.Of` | src/main/java/mikera/matrixx/impl/PermutationMatrix.java:23-25 | `create(int...)` builds over a fresh array holding the given values |
| `PermutationMatrices.PermutationMatrix.IsFullyMutable` | src/main/java/mikera/matrixx/impl/PermutationMatrix.java:27-30 | a permutation matrix is never fully mutable |
| `PermutationMatrices.PermutationMatrix.IsSquare` | src/main/java/mikera/matrixx/impl/PermutationMatrix.java:32-35 | always square, and the row and column counts agree |
| `PermutationMatrices.PermutationMatrix.RowCount` | src/main/java/mikera/matrixx/impl/PermutationMatrix.java:37-40 | the row count is the length of the index array |
| `PermutationMatrices.PermutationMatrix.ColumnCount` | src/main/java/mikera/matrixx/impl/PermutationMatrix.java:42-45 | the column count is the length of the index array |
| `PermutationMatrices.PermutationMatrix.Get` | src/main/java/mikera/matrixx/impl/PermutationMatrix.java:47-50 | fails exactly for an out-of-range row; otherwise gives 1 iff `perm[row] == column` and 0 otherwise, with the column unchecked |
| `PermutationMatrices.PermutationMatrix.Set` | src/main/java/mikera/matrixx/impl/PermutationMatrix.java:52-55 | always fails with an unsupported-operation error; it has no modifies clause, so nothing changes |
| `PermutationMatrices.PermutationMatrix.GetRow` | src/main/java/mikera/matrixx/impl/PermutationMatrix.java:57-60 | fails exactly for an out-of-range row; otherwise gives the axis vector of length `size` at `perm[i]` |
| `PermutationMatrices.PermutationMatrix.GetColumn` | src/main/java/mikera/matrixx/impl/PermutationMatrix.java:62-65 | the axis vector of length `size` at the first row whose 1 is in column `j` |
| `PermutationMatrices.PermutationMatrix.Find` | src/main/java/mikera/matrixx/impl/PermutationMatrix.java:77-78 | the linear search returns `IndexOf(perm, value)` |
| `PermutationMatrices.PermutationMatrix.SwapRows` | src/main/java/mikera/matrixx/impl/PermutationMatrix.java:67-72 | `i == j` changes nothing; otherwise `perm` becomes `Swapped(old perm, i, j)` |
| `PermutationMatrices.PermutationMatrix.SwapColumns` | src/main/java/mikera/matrixx/impl/PermutationMatrix.java:74-81 | `i == j` changes nothing; otherwise the positions found for `i` and `j` are swapped, so they now hold `j` and `i` |
| `PermutationMatrices.PermutationMatrix.Transform` | src/main/java/mikera/matrixx/impl/PermutationMatrix.java:83-90 | `dest[i] == source[perm[i]]` for every `i` |
| `PermutationMatrices.PermutationMatrix.InnerProduct` | src/main/java/mikera/matrixx/impl/PermutationMatrix.java:107-117 | the result is `PermuteRowsChecked(perm, a)`: the `size x cc` matrix whose row `i` is row `perm[i]` of `a`, or the index error that `System.arraycopy` raises for an index naming no row of `a` |
| `PermutationMatrices.PermutationMatrix.InnerProductGeneric` | src/main/java/mikera/matrixx/impl/PermutationMatrix.java:92-105 | the generic overload with its loop guard corrected gives the same `PermuteRowsChecked(perm, a)`, the error now coming from `a.get` |
| `PermutationMatrices.PermutationMatrix.InnerProductGenericAsWritten` | src/main/java/mikera/matrixx/impl/PermutationMatrix.java:92-105 | as written, with guard `i < cc`: it fails with an index error exactly when `size > 0` and `cc > 0`, and otherwise gives `PermuteRowsChecked(perm, a)`, the empty matrix |
| `PermutationMatrices.PermutationMatrix.ExactClone` | src/main/java/mikera/matrixx/impl/PermutationMatrix.java:119-122 | a fresh matrix over a fresh array with the same contents |
| `PermutationMatrices.PermutationMatrix.Validate` | src/main/java/mikera/matrixx/impl/PermutationMatrix.java:125-129 | as written: passes iff `size` equals the index length; otherwise fails with the size error |
| `PermutationMatrices.PermutationMatrix.ValidatePermutation` | src/main/java/mikera/matrixx/impl/PermutationMatrix.java:125-129 | as intended: passes iff the size matches and `perm` is a bijection on `[0, size)`; the size error comes first |
| `PermutationMatrices.OneInEachRow` | src/main/java/mikera/matrixx/impl/PermutationMatrix.java:47-50 | each row has exactly one 1, in column `perm[row]`, and zeros elsewhere |
| `PermutationMatrices.OneInEachColumn` | src/main/java/mikera/matrixx/impl/PermutationMatrix.java:47-50 | for a bijection each column has exactly one 1, in row `find(column)` |
| `PermutationMatrices.RowAgreesWithGet` | src/main/java/mikera/matrixx/impl/PermutationMatrix.java:57-60 | `getRow(i)` agrees entry by entry with `get(i, c)` |
| `PermutationMatrices.ColumnAgreesWithGet` | src/main/java/mikera/matrixx/impl/PermutationMatrix.java:62-65 | for an injective array, `getColumn(j)` agrees entry by entry with `get(k, j)` |
| `PermutationMatrices.RowDotIsTransform` | src/main/java/mikera/matrixx/impl/PermutationMatrix.java:83-90 | `getRow(i)` dotted with `v` is `v[perm[i]]`, the entry `transform` writes |
| `PermutationMatrices.SwapColumnsDefined` | src/main/java/mikera/matrixx/impl/PermutationMatrix.java:74-81 | for a bijection, every pair of columns in range meets the requirement of `swapColumns` |
| `PermutationMatrices.ValidateAcceptsRepeatedIndex` | src/main/java/mikera/matrixx/impl/PermutationMatrix.java:125-129 | the index array `[0, 0]` passes `validate` although it is no permutation |
| `PermutationMatrices.SwapRowsOfCopy` | src/main/java/mikera/matrixx/impl/PermutationMatrix.java:19-21 | swapping rows of a created matrix leaves the caller's array unchanged |
| `BandedMatrices.DiagonalLengthCountsEntries` | src/main/java/mikera/matrixx/impl/ABandedMatrix.java:137-140 | the expected band length counts exactly the band positions that name an entry inside the shape |
| `BandedMatrices.PositionAddressesEntry` | src/main/java/mikera/matrixx/impl/ABandedMatrix.java:82-87 | band `i - row` at position `min(i, row)` names entry `(row, i)` |
| `BandedMatrices.BandedMatrix.constructor` | src/main/java/mikera/matrixx/impl/ABandedMatrix.java:18-25 | a concrete banded matrix: its shape, its two limits, and one distinct band vector for every band between the limits |
| `BandedMatrices.BandedMatrix.GetBand` | src/main/java/mikera/matrixx/impl/ABandedMatrix.java:24-25 | inside the limits, the stored band vector; outside them, the empty vector |
| `BandedMatrices.BandedMatrix.BandGet` | src/main/java/mikera/matrixx/impl/ABandedMatrix.java:86 | `getBand(b).unsafeGet(p)` is component `p` of band `b` |
| `BandedMatrices.BandedMatrix.IsFullyMutable` | src/main/java/mikera/matrixx/impl/ABandedMatrix.java:44-47 | a banded matrix is never fully mutable |
| `BandedMatrices.BandedMatrix.UpperBandwidth` | src/main/java/mikera/matrixx/impl/ABandedMatrix.java:28-34 | the result is 0 or a band in `(0, upperLimit]` that is not all zero, and every band above it up to the limit is zero |
| `BandedMatrices.BandedMatrix.LowerBandwidth` | src/main/java/mikera/matrixx/impl/ABandedMatrix.java:36-42 | the result is 0 or a band in `[lowerLimit, 0)` that is not all zero, and every band below it down to the limit is zero |
| `BandedMatrices.BandedMatrix.Validate` | src/main/java/mikera/matrixx/impl/ABandedMatrix.java:131-141 | passes iff `lower > -rows`, `upper < cols` and every band has its expected length; checks the lower limit, then the upper limit, then reports the first band with a bad length |
| `BandedMatrices.BandedMatrix.GetRow` | src/main/java/mikera/matrixx/impl/ABandedMatrix.java:49-52 | a fresh row view of this matrix for the given row |
| `BandedMatrices.BandedMatrixRow.constructor` | src/main/java/mikera/matrixx/impl/ABandedMatrix.java:64-69 | the view captures the owner's column count and band limits |
| `BandedMatrices.BandedMatrixRow.Length` | src/main/java/mikera/matrixx/impl/ABandedMatrix.java:71-74 | the length is the owner's column count |
| `BandedMatrices.BandedMatrixRow.IsFullyMutable` | src/main/java/mikera/matrixx/impl/ABandedMatrix.java:124-127 | the view is never fully mutable, since it answers as its owner does (lines 44-47) |
| `BandedMatrices.BandedMatrixRow.UnsafeGet` | src/main/java/mikera/matrixx/impl/ABandedMatrix.java:82-87 | zero off the stored bands; otherwise band `i - row` at position `min(i, row)` |
| `BandedMatrices.BandedMatrixRow.Get` | src/main/java/mikera/matrixx/impl/ABandedMatrix.java:76-80 | fails exactly outside `[0, length)`; otherwise gives `unsafeGet(i)` |
| `BandedMatrices.BandedMatrixRow.DotRange` | src/main/java/mikera/matrixx/impl/ABandedMatrix.java:92 | the loop bounds cover exactly the columns of the row that lie on a stored band |
| `BandedMatrices.BandedMatrixRow.DotOverRange` | src/main/java/mikera/matrixx/impl/ABandedMatrix.java:89-105 | the row's full dot product with `v` equals the sum over the visited columns, and is zero when there are none |
| `BandedMatrices.BandedMatrixRow.DotProduct` | src/main/java/mikera/matrixx/impl/ABandedMatrix.java:89-105 | the band-only accumulation equals the full dot product of the row with `v` |
| `BandedMatrices.BandedMatrixRow.UnsafeSet` | src/main/java/mikera/matrixx/impl/ABandedMatrix.java:113-117 | band `i - row` gets the value at position `min(i, row)`, every other band is unchanged, and reading `i` back gives the value |
| `BandedMatrices.BandedMatrixRow.Set` | src/main/java/mikera/matrixx/impl/ABandedMatrix.java:107-111 | fails, changing nothing, exactly outside `[0, length)`; otherwise acts as `unsafeSet` |
| `BandedMatrices.WellFormedRowsReadable` | src/main/java/mikera/matrixx/impl/ABandedMatrix.java:131-141 | once `validate` holds, every column of every row maps to a band position that exists |
| `EmptyVectors.Of` | src/main/java/mikera/vectorz/impl/Vector0.java:24-33 | succeeds iff no values are given, and then holds exactly those (no) values; otherwise an illegal-argument error |
| `EmptyVectors.Vector0.Length` | src/main/java/mikera/vectorz/impl/Vector0.java:37-40 | the length is the number of components |
| `EmptyVectors.Vector0.ElementSum` | src/main/java/mikera/vectorz/impl/Vector0.java:42-45 | the sum of the components |
| `EmptyVectors.Vector0.ElementProduct` | src/main/java/mikera/vectorz/impl/Vector0.java:47-50 | the product of the components |
| `EmptyVectors.Vector0.NonZeroCount` | src/main/java/mikera/vectorz/impl/Vector0.java:52-55 | the number of non-zero components |
| `EmptyVectors.Vector0.Get` | src/main/java/mikera/vectorz/impl/Vector0.java:57-61 | succeeds iff the index is in range, which it never is; an index error otherwise |
| `EmptyVectors.Vector0.Set` | src/main/java/mikera/vectorz/impl/Vector0.java:63-67 | succeeds iff the index is in range, which it never is; an index error otherwise |
| `EmptyVectors.Vector0.Clone` | src/main/java/mikera/vectorz/impl/Vector0.java:69-72 | the copy has the same components |
| `EmptyVectors.Vector0.IsMutable` | src/main/java/mikera/vectorz/impl/Vector0.java:74-78 | true iff some component can be set |
| `EmptyVectors.Vector0.IsFullyMutable` | src/main/java/mikera/vectorz/impl/Vector0.java:80-84 | true iff every in-range component can be set, which holds vacuously |
| `EmptyVectors.Vector0.IsZero` | src/main/java/mikera/vectorz/impl/Vector0.java:92-95 | true iff every component is zero |
| `EmptyVectors.Vector0.MagnitudeSquared` | src/main/java/mikera/vectorz/impl/Vector0.java:97-100 | the vector dotted with itself |
| `EmptyVectors.Vector0.Magnitude` | src/main/java/mikera/vectorz/impl/Vector0.java:102-105 | the non-negative square root of the squared magnitude |
| `EmptyVectors.Vector0.Join` | src/main/java/mikera/vectorz/impl/Vector0.java:107-110 | the concatenation of this vector's components with `v` |
| `EmptyVectors.Vector0.Immutable` | src/main/java/mikera/vectorz/impl/Vector0.java:112-115 | an immutable vector with the same components |
| `EmptyVectors.Vector0.Dense` | src/main/java/mikera/vectorz/impl/Vector0.java:117-120 | a dense vector with the same components |
| `EmptyVectors.Vector0.SubVector` | src/main/java/mikera/vectorz/impl/Vector0.java:122-126 | succeeds iff `[start, start + length)` lies inside the vector, giving that slice; an index error otherwise |
| `EmptyVectors.Vector0.ExactClone` | src/main/java/mikera/vectorz/impl/Vector0.java:135-139 | the copy has the same components |

## Left out

- The tall bidiagonal decomposition, `QuadraticOp`, `Scalar` and the dense `Vector` are not part of this model. They are floating-point numerics and buffer plumbing outside the structured views.
- Floating point: every `double` is a `real`, so rounding is not modelled. The sums in `dotProduct` and `innerProduct` are exact.
- `Index`, `AxisVector`, `AMatrix`, `AVector` and `Matrix` are not part of this model. They appear only as the values the views need:
  - an index array;
  - a one-hot vector;
  - a real sequence;
  - a row-major buffer.
- `AMatrix.bandLength` is not part of this model. `DiagonalLength` takes it to be the number of entries of the matrix on the diagonal.
- `getBand` outside the declared limits is defined by each concrete subclass. Here it is the empty vector, which is all zero, as the bandwidth scans need.
- `PermutationMatrices.PermutationMatrix.SwapRows`: requires both indices in range, because `Index.swap` on a bad index is not part of this model.
- `PermutationMatrices.PermutationMatrix.SwapColumns`: requires both columns to occur in `perm`. A bijection meets this, as `SwapColumnsDefined` proves. `Index.find` on an absent value returns -1, and what `Index.swap` and `AxisVector.create` then do is not part of this model.
- `PermutationMatrices.PermutationMatrix.GetColumn`: requires the column to occur in `perm`, for the same reason.
- `PermutationMatrices.PermutationMatrix.Find`: stated as the first position holding the value. In a bijection that position is the only one (`IndexOfUnique`).
- `PermutationMatrices.PermutationMatrix.Transform`:
  - `source` is taken as a value, so `source` and `dest` aliasing each other is not modelled;
  - the Java `assert`s on the lengths become requirements;
  - every entry is required in range, because `source.get` on a bad index is not part of this model.
- `PermutationMatrices.PermutationMatrix.InnerProduct`: the `instanceof Matrix` dispatch of the generic overload is not modelled. Both overloads are separate methods over the same dense value.
- `PermutationMatrices.PermutationMatrix.InnerProductGeneric`: `a.get` of a general `AMatrix` is taken to raise an index error outside the shape, as `DenseMatrix.At` does; what each concrete `AMatrix` does there is not part of this model.
- `PermutationMatrices.CopyBlock`: the offset `perm[i] * cc` is an unbounded integer, so a 32-bit wrap of that product for a huge out-of-range index is not modelled.
- `PermutationMatrices.PermutationMatrix.Validate`: `super.validate()` of `AMatrix` is not part of this model.
- `BandedMatrices.BandedMatrix.Validate`: `super.validate()` of `AMatrix` is not part of this model.
- `BandedMatrices.BandedMatrixRow.Set`: requires an in-range column to lie on a stored band, and its position to exist. What `getBand(b).unsafeSet` does off the band is up to each concrete subclass.
- `BandedMatrices.BandedMatrixRow.UnsafeGet`: requires band positions to exist. `WellFormedRowsReadable` shows that a matrix passing `validate` meets this for every row.
- `BandedMatrices.BandedMatrixRow.DotProduct`: both Java overloads (`AVector` and `Vector`) share one body and are modelled once. `v` is required to have the row's length.
- The row view's `exactClone` is left out. It calls the owner's `exactClone`, which is abstract here.
- `Vector0.hashCode` is left out: hash codes are not part of this model. It returns the constant 1, the hash of an empty `double` array.
- `readResolve` is left out: it is serialisation. The datatype `Vector0` has a single value, so the singleton property holds by construction.

## Findings

| source | as written | input that shows it | evidently intended | confidence | as-written member | corrected member |
|---|---|---|---|---|---|---|
| src/main/java/mikera/matrixx/impl/PermutationMatrix.java:100 | the inner loop of `innerProduct(AMatrix)` tests `i<cc`, which never changes inside the loop | `PermutationMatrix.create(0).innerProduct(PermutationMatrix.create(0))`: the argument is an `AMatrix` but not a `Matrix`, so line 94 does not dispatch; after `j = 0` the loop goes on to `j = 1`, past the only column, and the write to `result.data[1]` of a one-entry buffer throws (in the model the read `a.get(0, 1)` fails first; either way an index error) | `j<cc`, so each row `perm[i]` of `a` is copied once, as in the `Matrix` overload | high, not executed | `PermutationMatrices.PermutationMatrix.InnerProductGenericAsWritten` | `PermutationMatrices.PermutationMatrix.InnerProductGeneric` |
| src/main/java/mikera/matrixx/impl/PermutationMatrix.java:128 | `validate()` only compares `size` with the index length, which the constructor makes equal | `create(0, 0)` passes `validate()` although `[0, 0]` is no permutation (lemma `PermutationMatrices.ValidateAcceptsRepeatedIndex`) | also check that `perm` is a bijection on `[0, size)` | medium, not executed | `PermutationMatrices.PermutationMatrix.Validate` | `PermutationMatrices.PermutationMatrix.ValidatePermutation` |
