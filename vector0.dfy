/**
 * Vector0: the immutable singleton vector of length zero, used as the
 * neutral element when vectors are built up by joining.  Its value is the
 * empty sequence; every indexed access is out of range.
 */
module EmptyVectors {
  import opened Wrappers
  import opened Vectors

  /** i addresses a component of a vector of length n. */
  predicate ValidIndex(n: int, i: int)
  {
    0 <= i < n
  }

  /** [start, start + length) is a range inside a vector of length n. */
  predicate ValidRange(n: int, start: int, length: int)
  {
    0 <= start && 0 <= length && start + length <= n
  }

  /** The one instance, Vector0.INSTANCE. */
  datatype Vector0 = Instance {

    /** The components of the vector. */
    function Elements(): seq<real>
    {
      []
    }

    function Length(): (n: nat)
      ensures n == |Elements()|
    {
      0
    }

    function ElementSum(): (r: real)
      ensures r == Sum(Elements())
    {
      0.0
    }

    function ElementProduct(): (r: real)
      ensures r == Product(Elements())
    {
      1.0
    }

    function NonZeroCount(): (c: nat)
      ensures c == NonZeros(Elements())
    {
      0
    }

    function MagnitudeSquared(): (r: real)
      ensures r == Dot(Elements(), Elements())
    {
      0.0
    }

    /** The Euclidean norm: the non-negative root of MagnitudeSquared. */
    function Magnitude(): (r: real)
      ensures r >= 0.0 && r * r == MagnitudeSquared()
    {
      0.0
    }

    /** get(i): no index is in range, so every access fails. */
    function Get(i: int): (r: Result<real>)
      ensures r.Ok? <==> ValidIndex(Length(), i)
      ensures r.Err? ==> r.error == IndexOutOfBounds
    {
      Err(IndexOutOfBounds)
    }

    /** set(i, value): no index is in range, so every update fails. */
    function Set(i: int, value: real): (r: Outcome)
      ensures r.Pass? <==> ValidIndex(Length(), i)
      ensures r.Fail? ==> r.error == IndexOutOfBounds
    {
      Fail(IndexOutOfBounds)
    }

    /** isMutable(): no component can be changed. */
    function IsMutable(): (r: bool)
      ensures r <==> exists i, v :: Set(i, v).Pass?
    {
      false
    }

    /** isFullyMutable(): every component can be changed, vacuously, since there are none. */
    function IsFullyMutable(): (r: bool)
      ensures r <==> forall i, v :: ValidIndex(Length(), i) ==> Set(i, v).Pass?
    {
      true
    }

    function IsZero(): (r: bool)
      ensures r <==> Vectors.IsZero(Elements())
    {
      true
    }

    /** join(v): appending to the empty vector yields v itself. */
    function Join(v: seq<real>): (r: seq<real>)
      ensures r == Elements() + v
    {
      v
    }

    /** subVector(start, length): only the empty range at 0 exists, and it is this vector. */
    function SubVector(start: int, length: int): (r: Result<Vector0>)
      ensures r.Ok? <==> ValidRange(Length(), start, length)
      ensures r.Ok? ==> r.value.Elements() == Elements()[start .. start + length]
      ensures r.Err? ==> r.error == IndexOutOfBounds
    {
      if start == 0 && length == 0 then Ok(this) else Err(IndexOutOfBounds)
    }

    /** clone(): the vector is immutable, so the copy may be the vector itself. */
    function Clone(): (c: Vector0)
      ensures c.Elements() == Elements()
    {
      this
    }

    function ExactClone(): (c: Vector0)
      ensures c.Elements() == Elements()
    {
      this
    }

    function Immutable(): (c: Vector0)
      ensures c.Elements() == Elements() && !c.IsMutable()
    {
      this
    }

    /** dense(): the dense empty vector. */
    function Dense(): (d: seq<real>)
      ensures d == Elements()
    {
      []
    }
  }

  /** of(values...): only an empty argument list is accepted. */
  function Of(values: seq<real>): (r: Result<Vector0>)
    ensures r.Ok? <==> values == []
    ensures r.Ok? ==> r.value.Elements() == values
    ensures r.Err? ==> r.error == IllegalArgument
  {
    if |values| != 0 then Err(IllegalArgument) else Ok(Instance)
  }
}
