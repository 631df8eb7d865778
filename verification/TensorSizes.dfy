/**
  The overflow-guarded size computations, as the loops that the C++ and Python
  sources run.  The C++ ones compute in wrapping machine arithmetic.
 */
module TensorSizes {
  import opened Outcomes
  import opened MachineIntegers
  import opened TensorLayout

  datatype Fault = Negative | Overflow | RankMismatch | UnsupportedDtype | ExceedsStorage

  /** The products of the first dimensions, from the left, all fit a `size_t`. */
  ghost predicate CountFits(shape: seq<int>, upTo: nat)
    requires upTo <= |shape|
  {
    forall k | 0 <= k <= upTo :: Product(shape[..k]) <= SIZE_MAX
  }

  /** The products of the last dimensions, from the right, all fit an `int64_t`. */
  ghost predicate StridesFit(shape: seq<int>, from: nat)
    requires from <= |shape|
  {
    forall k | from <= k <= |shape| :: Product(shape[k..]) <= INT64_MAX
  }

  /** The multiplication guard fires at dimension `k` and not before. */
  ghost predicate CountFault(shape: seq<int>, k: nat, fault: Fault) {
    && k < |shape| && NonNegative(shape[..k]) && CountFits(shape, k)
    && match fault
       case Negative => shape[k] < 0
       case Overflow => 0 <= shape[k] && Product(shape[..k + 1]) > SIZE_MAX
       case _ => false
  }

  ghost predicate StrideFault(shape: seq<int>, k: nat, fault: Fault) {
    && k < |shape| && NonNegative(shape[k + 1..]) && StridesFit(shape, k + 1)
    && match fault
       case Negative => shape[k] < 0
       case Overflow => 0 <= shape[k] && Product(shape[k..]) > INT64_MAX
       case _ => false
  }

  lemma PrefixProduct(shape: seq<int>, k: nat)
    requires k < |shape|
    ensures Product(shape[..k + 1]) == Product(shape[..k]) * shape[k]
  {
    ProductAppend(shape[..k], shape[k]);
    assert shape[..k + 1] == shape[..k] + [shape[k]];
  }

  /** `element_count`. */
  method ElementCount(shape: seq<Int64>) returns (r: Result<Size, Fault>)
    ensures r.Ok? <==> NonNegative(shape) && CountFits(shape, |shape|)
    ensures r.Ok? ==> r.value == Product(shape)
    ensures r.Err? ==> exists k: nat :: CountFault(shape, k, r.error)
  {
    var count: Size := 1;
    for i := 0 to |shape|
      invariant NonNegative(shape[..i]) && CountFits(shape, i)
      invariant count == Product(shape[..i])
    {
      var dimension := shape[i];
      PrefixProduct(shape, i);
      if dimension < 0 {
        assert CountFault(shape, i, Negative);
        return Err(Negative);
      }
      if dimension != 0 {
        DivisionGuard(count, dimension, SIZE_MAX);
      }
      if dimension != 0 && count > SIZE_MAX / dimension {
        assert CountFault(shape, i, Overflow);
        return Err(Overflow);
      }
      NoWrapMul(count, dimension);
      count := WrapMul(count, dimension);
    }
    assert shape[..|shape|] == shape;
    return Ok(count);
  }

  lemma SuffixProduct(shape: seq<int>, k: nat)
    requires k < |shape|
    ensures Product(shape[k..]) == Product(shape[k + 1..]) * shape[k]
    ensures RowMajor(shape[k..]) == [Product(shape[k + 1..])] + RowMajor(shape[k + 1..])
  {
    assert shape[k..][1..] == shape[k + 1..];
  }

  /** `contiguous_strides` of the C++ source. */
  method ContiguousStrides(shape: seq<Int64>) returns (r: Result<seq<Int64>, Fault>)
    ensures r.Ok? <==> NonNegative(shape) && StridesFit(shape, 0)
    ensures r.Ok? ==> r.value == RowMajor(shape)
    ensures r.Err? ==> exists k: nat :: StrideFault(shape, k, r.error)
  {
    var result: seq<Int64> := seq(|shape|, _ => 0);
    var stride: Int64 := 1;
    var index := |shape|;
    while index > 0
      invariant 0 <= index <= |shape| && |result| == |shape|
      invariant NonNegative(shape[index..]) && StridesFit(shape, index)
      invariant stride == Product(shape[index..])
      invariant result[index..] == RowMajor(shape[index..])
    {
      var dimension := shape[index - 1];
      SuffixProduct(shape, index - 1);
      if dimension < 0 {
        assert StrideFault(shape, index - 1, Negative);
        return Err(Negative);
      }
      result := result[index - 1 := stride];
      assert result[index - 1..] == [stride] + result[index..];
      ProductNonNegative(shape[index..]);
      if dimension != 0 {
        DivisionGuard(stride, dimension, INT64_MAX);
      }
      if dimension != 0 && stride > INT64_MAX / dimension {
        assert StrideFault(shape, index - 1, Overflow);
        return Err(Overflow);
      }
      stride := stride * dimension;
      index := index - 1;
    }
    assert shape[0..] == shape && result[0..] == result;
    return Ok(result);
  }

  /** `contiguous_strides` of the Python source: unbounded, no checks. */
  method ContiguousStridesPy(shape: seq<int>) returns (result: seq<int>)
    ensures result == RowMajor(shape)
  {
    result := seq(|shape|, _ => 0);
    var stride := 1;
    var index := |shape|;
    while index > 0
      invariant 0 <= index <= |shape| && |result| == |shape|
      invariant stride == Product(shape[index..])
      invariant result[index..] == RowMajor(shape[index..])
    {
      index := index - 1;
      assert shape[index..][1..] == shape[index + 1..];
      result := result[index := stride];
      assert result[index..] == [stride] + result[index + 1..];
      stride := stride * shape[index];
    }
    assert shape[0..] == shape && result[0..] == result;
  }

  /** `byte_count`. */
  method ByteCount(shape: seq<Int64>, itemSize: Size) returns (r: Result<Size, Fault>)
    requires 0 < itemSize
    ensures r.Ok? <==> NonNegative(shape) && CountFits(shape, |shape|) && Product(shape) * itemSize <= SIZE_MAX
    ensures r.Ok? ==> r.value == Product(shape) * itemSize
    ensures r == Err(Negative) ==> exists k: nat :: CountFault(shape, k, Negative)
  {
    var counted := ElementCount(shape);
    if counted.Err? {
      return counted;
    }
    var count := counted.value;
    if count != 0 {
      DivisionGuard(itemSize, count, SIZE_MAX);
    }
    if count != 0 && itemSize > SIZE_MAX / count {
      return Err(Overflow);
    }
    NoWrapMul(count, itemSize);
    return Ok(WrapMul(count, itemSize));
  }

  /** Without a zero dimension the guards fire exactly when the whole product is
      too large. */
  lemma GuardsExact(shape: seq<int>)
    requires Positive(shape)
    ensures CountFits(shape, |shape|) <==> Product(shape) <= SIZE_MAX
    ensures StridesFit(shape, 0) <==> Product(shape) <= INT64_MAX
  {
    forall k | 0 <= k <= |shape|
      ensures Product(shape[..k]) <= Product(shape) && Product(shape[k..]) <= Product(shape)
    {
      PrefixProductBound(shape, k);
      SuffixProductBound(shape, k);
    }
    assert shape[..|shape|] == shape && shape[0..] == shape;
  }

  /** With one, a product of nothing but zero can still be refused, because the
      dimensions before it are multiplied first. */
  lemma ZeroDimensionRefused(shape: seq<int>)
    requires shape == [0x1_0000_0000, 0x1_0000_0000, 0]
    ensures Product(shape) == 0 && !CountFits(shape, |shape|) && StridesFit(shape, 0)
  {
    assert shape[1..] == [0x1_0000_0000, 0] && shape[2..] == [0] && shape[3..] == [];
    ProductZero(shape, 2);
    assert shape[..2] == [0x1_0000_0000, 0x1_0000_0000];
    assert Product(shape[..2]) == 0x1_0000_0000 * Product([0x1_0000_0000]);
  }
}
