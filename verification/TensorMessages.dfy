/**
  Tensor messages: the view bounds check in C++ and in Python, allocation, and
  the copy of a CPU tensor into a message.
 */
module TensorMessages {
  import opened Outcomes
  import opened MachineIntegers
  import opened TensorLayout
  import opened TensorSizes

  type Bytes = s: seq<bv8> | |s| <= SIZE_MAX

  datatype Dtype = Dtype(code: nat, bits: nat, lanes: nat)

  /** The element size of a supported message dtype. */
  function ItemSize(dtype: Dtype): (size: Option<Size>)
    ensures size.Some? ==> 1 <= size.value <= 8
  {
    if dtype.lanes != 1 then None
    else if dtype.code == 1 && dtype.bits == 8 then Some(1)
    else if dtype.code == 0 && dtype.bits in {8, 16, 32, 64} then Some(dtype.bits / 8)
    else if dtype.code == 2 && dtype.bits in {16, 32, 64} then Some(dtype.bits / 8)
    else if dtype.code == 4 && dtype.bits == 16 then Some(2)
    else if dtype.code == 6 && dtype.bits == 8 then Some(1)
    else None
  }

  /** Signed integers, bytes, floats, bfloat16 and booleans, by code and width. */
  lemma SupportedDtypes(dtype: Dtype)
    ensures ItemSize(dtype).Some? <==>
              && dtype.lanes == 1
              && (dtype.code, dtype.bits) in {(0, 8), (0, 16), (0, 32), (0, 64), (1, 8), (2, 16), (2, 32), (2, 64), (4, 16), (6, 8)}
    ensures ItemSize(dtype).Some? ==> ItemSize(dtype).value * 8 == dtype.bits
  {
  }

  /** The fields of a message. */
  datatype View = View(shape: seq<Int64>, strides: seq<Int64>, dtype: Dtype, byteOffset: Size, data: Bytes)

  /** Empty strides stand for the row-major ones. */
  function NormalStrides(view: View): seq<int> {
    if view.strides == [] then RowMajor(view.shape) else view.strides
  }

  /** The number of elements between the first and the last of a view, or none
      if some dimension is zero. */
  function Elements(shape: seq<int>, strides: seq<int>): int
    requires |shape| == |strides|
  {
    if FirstZero(shape) < |shape| then 0 else Span(shape, strides)
  }

  // ------------------------------------------------------------ validate_view

  /** The spans of the first dimensions all fit a `size_t`. */
  ghost predicate SpanFits(shape: seq<int>, strides: seq<int>, upTo: nat)
    requires |shape| == |strides| && upTo <= |shape|
  {
    forall k | 0 <= k <= upTo :: Span(shape[..k], strides[..k]) <= SIZE_MAX
  }

  /** Strides can be had, and nothing overflows before the first zero dimension. */
  ghost predicate NoEarlyOverflow(view: View) {
    && (view.strides == [] ==> StridesFit(view.shape, 0))
    && |NormalStrides(view)| == |view.shape|
    && SpanFits(view.shape, NormalStrides(view), FirstZero(view.shape))
  }

  /** The elements of the view lie inside the message's storage. */
  ghost predicate InStorage(view: View) {
    && ItemSize(view.dtype).Some?
    && |NormalStrides(view)| == |view.shape|
    && view.byteOffset + Elements(view.shape, NormalStrides(view)) * ItemSize(view.dtype).value <= |view.data|
  }

  /** What the C++ check lets through: dimensions and strides are looked at only
      up to the first zero dimension. */
  ghost predicate Accepts(view: View) {
    && NoEarlyOverflow(view) && InStorage(view)
    && (view.strides == [] ==> NonNegative(view.shape))
    && forall i | 0 <= i <= FirstZero(view.shape) && i < |view.shape| ::
         0 <= view.shape[i] && 0 <= NormalStrides(view)[i]
  }

  /** `normalized_strides`. */
  method NormalizedStrides(view: View) returns (r: Result<seq<Int64>, Fault>)
    ensures r.Ok? <==> if view.strides == [] then NonNegative(view.shape) && StridesFit(view.shape, 0) else |view.strides| == |view.shape|
    ensures r.Ok? ==> r.value == if view.strides == [] then RowMajor(view.shape) else view.strides
    ensures r.Ok? ==> r.value == NormalStrides(view)
  {
    if view.strides == [] {
      r := ContiguousStrides(view.shape);
    } else if |view.strides| != |view.shape| {
      r := Err(RankMismatch);
    } else {
      r := Ok(view.strides);
    }
  }

  lemma NextSpan(shape: seq<int>, strides: seq<int>, k: nat)
    requires |shape| == |strides| && k < |shape|
    ensures Span(shape[..k + 1], strides[..k + 1]) == Span(shape[..k], strides[..k]) + (shape[k] - 1) * strides[k]
  {
    SpanAppend(shape[..k], strides[..k], shape[k], strides[k]);
    assert shape[..k + 1] == shape[..k] + [shape[k]];
    assert strides[..k + 1] == strides[..k] + [strides[k]];
  }

  /** The loop of `validate_view`: `Elements`, computed in machine arithmetic. */
  method ViewSpan(shape: seq<Int64>, strides: seq<Int64>) returns (r: Result<Size, Fault>)
    requires |shape| == |strides|
    ensures var z := FirstZero(shape);
            r.Ok? <==> SpanFits(shape, strides, z) && forall i | 0 <= i <= z && i < |shape| :: 0 <= shape[i] && 0 <= strides[i]
    ensures r.Ok? ==> r.value == Elements(shape, strides)
    ensures r.Ok? ==> r.value == if exists i :: 0 <= i < |shape| && shape[i] == 0 then 0 else Span(shape, strides)
    ensures r.Err? ==> r.error in {Negative, Overflow}
  {
    var span: Size := 1;
    var index := 0;
    ghost var z := FirstZero(shape);
    while index < |shape|
      invariant 0 <= index <= z
      invariant span == Span(shape[..index], strides[..index]) && 1 <= span
      invariant SpanFits(shape, strides, index)
      invariant forall i | 0 <= i < index :: 0 < shape[i] && 0 <= strides[i]
    {
      if shape[index] < 0 || strides[index] < 0 {
        return Err(Negative);
      }
      if shape[index] == 0 {
        return Ok(0);
      }
      var extent: Size := shape[index] - 1;
      var stride: Size := strides[index];
      NextSpan(shape, strides, index);
      if stride != 0 {
        DivisionGuard(extent, stride, SIZE_MAX);
      }
      if stride != 0 && extent > SIZE_MAX / stride {
        assert !SpanFits(shape, strides, index + 1);
        return Err(Overflow);
      }
      NoWrapMul(extent, stride);
      var contribution := WrapMul(extent, stride);
      if span > SIZE_MAX - contribution {
        assert !SpanFits(shape, strides, index + 1);
        return Err(Overflow);
      }
      span := WrapAdd(span, contribution);
      index := index + 1;
    }
    assert shape[..|shape|] == shape && strides[..|strides|] == strides;
    return Ok(span);
  }

  /** The end of `validate_view`: whether `span` elements fit the storage. */
  method RequiredBytes(span: Size, item: Size, byteOffset: Size, storage: Size) returns (r: Result<Size, Fault>)
    requires 0 < item
    ensures r.Ok? <==> byteOffset + span * item <= storage
    ensures r.Ok? ==> r.value == byteOffset + span * item
  {
    if span != 0 {
      DivisionGuard(item, span, SIZE_MAX);
    }
    if span != 0 && item > SIZE_MAX / span {
      return Err(Overflow);
    }
    NoWrapMul(span, item);
    var bytes := WrapMul(span, item);
    if byteOffset > SIZE_MAX - bytes {
      return Err(Overflow);
    }
    var required := WrapAdd(byteOffset, bytes);
    if required > storage {
      return Err(ExceedsStorage);
    }
    return Ok(required);
  }

  /** `validate_view`; on success the number of storage bytes it required. */
  method ValidateView(view: View) returns (r: Result<Size, Fault>)
    ensures r.Ok? <==> Accepts(view)
    ensures r.Ok? ==> r.value == view.byteOffset + Elements(view.shape, NormalStrides(view)) * ItemSize(view.dtype).value
  {
    var normalized := NormalizedStrides(view);
    if normalized.Err? {
      return Err(normalized.error);
    }
    var spanned := ViewSpan(view.shape, normalized.value);
    if spanned.Err? {
      return spanned;
    }
    var item := ItemSize(view.dtype);
    if item.None? {
      return Err(UnsupportedDtype);
    }
    r := RequiredBytes(spanned.value, item.value, view.byteOffset, |view.data|);
  }

  /** View safety: an accepted view keeps every element of every index inside the
      message's storage. */
  lemma AcceptedViewIsSafe(view: View, index: seq<int>)
    requires Accepts(view) && InShape(index, view.shape)
    ensures var item, at := ItemSize(view.dtype).value, Offset(index, NormalStrides(view));
            0 <= view.byteOffset + at * item && view.byteOffset + at * item + item <= |view.data|
  {
    var strides := NormalStrides(view);
    var item := ItemSize(view.dtype).value;
    assert forall i | 0 <= i < |view.shape| :: 0 <= index[i] < view.shape[i];
    assert FirstZero(view.shape) == |view.shape|;
    OffsetBelowSpan(index, view.shape, strides);
    var at := Offset(index, strides);
    assert (at + 1) * item <= Span(view.shape, strides) * item;
  }

  // --------------------------------------------------------------- _metadata

  datatype Metadata = Metadata(strides: seq<int>, span: int, itemSize: Size)

  /** `_metadata` of the Python source, over unbounded integers. */
  function MetadataPy(view: View): Option<Metadata> {
    var item := ItemSize(view.dtype);
    var strides := NormalStrides(view);
    if item.None? || |view.shape| != |strides| then None
    else if !NonNegative(view.shape) || !NonNegative(strides) then None
    else
      var span := if exists i :: 0 <= i < |view.shape| && view.shape[i] == 0 then 0 else Span(view.shape, strides);
      if view.byteOffset + span * item.value > |view.data| then None
      else Some(Metadata(strides, span, item.value))
  }

  /** C++ and Python, on every view: what either lets through and the other does
      not is a negative number behind a zero dimension, or an overflow that
      Python's integers do not have. */
  lemma AcceptsVersusPython(view: View)
    ensures Accepts(view) && NonNegative(view.shape) && NonNegative(NormalStrides(view))
       <==> MetadataPy(view).Some? && NoEarlyOverflow(view)
    ensures var m := MetadataPy(view);
            m.Some? ==>
              && m.value.strides == NormalStrides(view) && m.value.span == Elements(view.shape, NormalStrides(view))
              && m.value.itemSize * 8 == view.dtype.bits && view.byteOffset + m.value.span * m.value.itemSize <= |view.data|
  {
    SupportedDtypes(view.dtype);
  }

  /** On positive shapes and storage below 2^63 bytes the two agree. */
  lemma AgreesWithPython(view: View)
    requires Positive(view.shape) && |view.data| <= INT64_MAX
    ensures Accepts(view) <==> MetadataPy(view).Some?
  {
    assert FirstZero(view.shape) == |view.shape|;
    if MetadataPy(view).Some? {
      var strides := NormalStrides(view);
      var item := ItemSize(view.dtype).value;
      SpanPositive(view.shape, strides);
      var span := Span(view.shape, strides);
      assert span <= span * item;
      forall k | 0 <= k <= |view.shape| ensures Span(view.shape[..k], strides[..k]) <= SIZE_MAX {
        PrefixSpan(view.shape, strides, k);
      }
      if view.strides == [] {
        RowMajorSpan(view.shape);
        GuardsExact(view.shape);
      }
      assert NoEarlyOverflow(view);
    }
    AcceptsVersusPython(view);
  }

  /** With a zero dimension either side can be the stricter one. */
  lemma ZeroDimensionDisagreement(data: Bytes)
    ensures var wide := View([4, 0], [INT64_MAX, 1], Dtype(1, 8, 1), 0, data);
            MetadataPy(wide).Some? && !Accepts(wide)
    ensures var negative := View([0, -1], [1, 1], Dtype(1, 8, 1), 0, data);
            MetadataPy(negative).None? && Accepts(negative)
  {
    var wide := View([4, 0], [INT64_MAX, 1], Dtype(1, 8, 1), 0, data);
    assert wide.shape[1] == 0;
    assert FirstZero([4, 0]) == 1 + FirstZero([4, 0][1..]) == 1;
    assert wide.shape[..1] == [4] && wide.strides[..1] == [INT64_MAX];
    assert Span([4], [INT64_MAX]) == 3 * INT64_MAX + 1;
    var negative := View([0, -1], [1, 1], Dtype(1, 8, 1), 0, data);
    assert negative.shape[1] == -1;
    assert negative.shape[..0] == [] && negative.strides[..0] == [];
  }
}
