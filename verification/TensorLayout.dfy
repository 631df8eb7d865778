/**
  Shapes, strides and offsets of tensors, over unbounded integers.

  Row-major strides are suffix products; they number the index tuples of a shape
  from 0 to the product of its dimensions, one to one.
 */
module TensorLayout {

  function Product(shape: seq<int>): int {
    if shape == [] then 1 else shape[0] * Product(shape[1..])
  }

  /** Row-major strides: each is the product of the dimensions to its right. */
  function RowMajor(shape: seq<int>): (strides: seq<int>)
    ensures |strides| == |shape|
  {
    if shape == [] then [] else [Product(shape[1..])] + RowMajor(shape[1..])
  }

  /** One more than the largest offset of a view, in elements. */
  function Span(shape: seq<int>, strides: seq<int>): int
    requires |shape| == |strides|
  {
    if shape == [] then 1 else (shape[0] - 1) * strides[0] + Span(shape[1..], strides[1..])
  }

  function Offset(index: seq<int>, strides: seq<int>): int
    requires |index| == |strides|
  {
    if index == [] then 0 else index[0] * strides[0] + Offset(index[1..], strides[1..])
  }

  ghost predicate InShape(index: seq<int>, shape: seq<int>) {
    |index| == |shape| && forall i | 0 <= i < |shape| :: 0 <= index[i] < shape[i]
  }

  predicate NonNegative(s: seq<int>) {
    forall i | 0 <= i < |s| :: 0 <= s[i]
  }

  predicate Positive(s: seq<int>) {
    forall i | 0 <= i < |s| :: 0 < s[i]
  }

  /** The index tuple with number `n`. */
  function Unravel(n: int, shape: seq<int>): seq<int>
    requires NonNegative(shape) && 0 <= n < Product(shape)
  {
    if shape == [] then []
    else
      var width := Product(shape[1..]);
      LeadingDigit(n, shape);
      [n / width] + Unravel(n % width, shape[1..])
  }

  lemma {:induction false} ProductNonNegative(shape: seq<int>)
    requires NonNegative(shape)
    ensures 0 <= Product(shape)
  {
    if shape != [] {
      ProductNonNegative(shape[1..]);
    }
  }

  lemma DivisionBounds(n: int, d: int, width: int)
    requires 0 < width && 0 <= n < d * width
    ensures 0 <= n / width < d && 0 <= n % width < width && n == n / width * width + n % width
  {
  }

  lemma LeadingDigit(n: int, shape: seq<int>)
    requires shape != [] && NonNegative(shape) && 0 <= n < Product(shape)
    ensures 0 < Product(shape[1..])
    ensures 0 <= n / Product(shape[1..]) < shape[0] && 0 <= n % Product(shape[1..]) < Product(shape[1..])
    ensures n == n / Product(shape[1..]) * Product(shape[1..]) + n % Product(shape[1..])
  {
    ProductNonNegative(shape[1..]);
    var width := Product(shape[1..]);
    assert Product(shape) == shape[0] * width;
    DivisionBounds(n, shape[0], width);
  }

  lemma {:induction false} ProductPositive(shape: seq<int>)
    requires Positive(shape)
    ensures 0 < Product(shape)
  {
    if shape != [] {
      ProductPositive(shape[1..]);
    }
  }

  // ------------------------------------------------------------- appending

  lemma {:induction false} ProductAppend(shape: seq<int>, d: int)
    ensures Product(shape + [d]) == Product(shape) * d
  {
    if shape == [] {
      assert [] + [d] == [d];
    } else {
      ProductAppend(shape[1..], d);
      assert (shape + [d])[1..] == shape[1..] + [d];
      assert shape[0] * (Product(shape[1..]) * d) == shape[0] * Product(shape[1..]) * d;
    }
  }

  lemma {:induction false} SpanAppend(shape: seq<int>, strides: seq<int>, d: int, s: int)
    requires |shape| == |strides|
    ensures Span(shape + [d], strides + [s]) == Span(shape, strides) + (d - 1) * s
  {
    if shape == [] {
      assert [] + [d] == [d] && [] + [s] == [s];
    } else {
      SpanAppend(shape[1..], strides[1..], d, s);
      assert (shape + [d])[1..] == shape[1..] + [d];
      assert (strides + [s])[1..] == strides[1..] + [s];
    }
  }

  /** A strided view spans at least one element, and more with every dimension. */
  lemma {:induction false} SpanPositive(shape: seq<int>, strides: seq<int>)
    requires |shape| == |strides| && Positive(shape) && NonNegative(strides)
    ensures 1 <= Span(shape, strides)
  {
    if shape != [] {
      SpanPositive(shape[1..], strides[1..]);
    }
  }

  /** A zero dimension makes every product that includes it zero. */
  lemma {:induction false} ProductZero(shape: seq<int>, z: nat)
    requires z < |shape| && shape[z] == 0
    ensures Product(shape) == 0
  {
    if z != 0 {
      ProductZero(shape[1..], z - 1);
    }
  }

  // ---------------------------------------------------- row-major layouts

  lemma {:induction false} RowMajorAt(shape: seq<int>, i: nat)
    requires i < |shape|
    ensures RowMajor(shape)[i] == Product(shape[i + 1..])
  {
    if i != 0 {
      RowMajorAt(shape[1..], i - 1);
      assert shape[1..][i..] == shape[i + 1..];
    }
  }

  lemma RowMajorNonNegative(shape: seq<int>)
    requires NonNegative(shape)
    ensures NonNegative(RowMajor(shape))
  {
    forall i | 0 <= i < |shape| ensures 0 <= RowMajor(shape)[i] {
      RowMajorAt(shape, i);
      ProductNonNegative(shape[i + 1..]);
    }
  }

  /** A row-major layout has no gaps: its span is the number of elements. */
  lemma {:induction false} RowMajorSpan(shape: seq<int>)
    requires Positive(shape)
    ensures Span(shape, RowMajor(shape)) == Product(shape)
  {
    if shape != [] {
      RowMajorSpan(shape[1..]);
      var width := Product(shape[1..]);
      assert (shape[0] - 1) * width + width == shape[0] * width;
    }
  }

  lemma MixedRadix(i: int, d: int, width: int, rest: int)
    requires 0 <= i < d && 0 <= rest < width
    ensures 0 <= i * width + rest < d * width
  {
    assert 0 <= i * width <= (d - 1) * width;
  }

  lemma {:induction false} OffsetInRange(index: seq<int>, shape: seq<int>)
    requires InShape(index, shape)
    ensures 0 <= Offset(index, RowMajor(shape)) < Product(shape)
  {
    if shape != [] {
      OffsetInRange(index[1..], shape[1..]);
      MixedRadix(index[0], shape[0], Product(shape[1..]), Offset(index[1..], RowMajor(shape[1..])));
    }
  }

  lemma QuotientRemainder(q: int, r: int, d: int)
    requires 0 <= r < d
    ensures (q * d + r) / d == q && (q * d + r) % d == r
  {
    var n := q * d + r;
    var m := n / d - q;
    assert m * d == r - n % d;
    assert m >= 1 ==> m * d >= d;
    assert m <= -1 ==> m * d <= -d;
  }

  lemma {:induction false} OffsetOfUnravel(n: int, shape: seq<int>)
    requires NonNegative(shape) && 0 <= n < Product(shape)
    ensures InShape(Unravel(n, shape), shape)
    ensures Offset(Unravel(n, shape), RowMajor(shape)) == n
  {
    if shape != [] {
      LeadingDigit(n, shape);
      var rest := n % Product(shape[1..]);
      OffsetOfUnravel(rest, shape[1..]);
      ConsInShape(n / Product(shape[1..]), Unravel(rest, shape[1..]), shape);
    }
  }

  lemma ConsInShape(i: int, index: seq<int>, shape: seq<int>)
    requires shape != [] && 0 <= i < shape[0] && InShape(index, shape[1..])
    ensures InShape([i] + index, shape) && ([i] + index)[1..] == index
  {
  }

  lemma {:induction false} UnravelOfOffset(index: seq<int>, shape: seq<int>)
    requires NonNegative(shape) && InShape(index, shape)
    ensures 0 <= Offset(index, RowMajor(shape)) < Product(shape)
    ensures Unravel(Offset(index, RowMajor(shape)), shape) == index
  {
    OffsetInRange(index, shape);
    if shape != [] {
      OffsetInRange(index[1..], shape[1..]);
      UnravelOfOffset(index[1..], shape[1..]);
      QuotientRemainder(index[0], Offset(index[1..], RowMajor(shape[1..])), Product(shape[1..]));
    }
  }

  /** The row-major offset is a bijection from the index tuples of a shape onto
      the numbers below its product. */
  lemma RowMajorBijection(shape: seq<int>)
    requires NonNegative(shape)
    ensures forall index | InShape(index, shape) :: 0 <= Offset(index, RowMajor(shape)) < Product(shape)
    ensures forall i, j | InShape(i, shape) && InShape(j, shape) && Offset(i, RowMajor(shape)) == Offset(j, RowMajor(shape)) :: i == j
    ensures forall n | 0 <= n < Product(shape) :: InShape(Unravel(n, shape), shape) && Offset(Unravel(n, shape), RowMajor(shape)) == n
  {
    forall index | InShape(index, shape) ensures 0 <= Offset(index, RowMajor(shape)) < Product(shape) {
      OffsetInRange(index, shape);
    }
    forall i, j | InShape(i, shape) && InShape(j, shape) && Offset(i, RowMajor(shape)) == Offset(j, RowMajor(shape))
      ensures i == j
    {
      UnravelOfOffset(i, shape);
      UnravelOfOffset(j, shape);
    }
    forall n | 0 <= n < Product(shape)
      ensures InShape(Unravel(n, shape), shape) && Offset(Unravel(n, shape), RowMajor(shape)) == n
    {
      OffsetOfUnravel(n, shape);
    }
  }

  /** The span is one more than the offset of the last index, whatever the strides. */
  lemma {:induction false} SpanIsLastOffset(shape: seq<int>, strides: seq<int>, last: seq<int>)
    requires |last| == |shape| == |strides| && forall i | 0 <= i < |shape| :: last[i] == shape[i] - 1
    ensures Span(shape, strides) == Offset(last, strides) + 1
  {
    if shape != [] {
      SpanIsLastOffset(shape[1..], strides[1..], last[1..]);
    }
  }

  /** Every index of a view with nonnegative strides lies below its span. */
  lemma {:induction false} OffsetBelowSpan(index: seq<int>, shape: seq<int>, strides: seq<int>)
    requires |strides| == |shape| && NonNegative(strides) && InShape(index, shape)
    ensures 0 <= Offset(index, strides) < Span(shape, strides)
  {
    if shape != [] {
      OffsetBelowSpan(index[1..], shape[1..], strides[1..]);
      assert index[0] * strides[0] <= (shape[0] - 1) * strides[0];
    }
  }

  /** The first zero dimension, or the rank if there is none. */
  function FirstZero(shape: seq<int>): (z: nat)
    ensures z <= |shape|
    ensures z < |shape| ==> shape[z] == 0
    ensures forall i | 0 <= i < z :: shape[i] != 0
  {
    if shape == [] || shape[0] == 0 then 0 else 1 + FirstZero(shape[1..])
  }

  /** Leaving out trailing dimensions does not lengthen a span. */
  lemma {:induction false} PrefixSpan(shape: seq<int>, strides: seq<int>, k: nat)
    requires |shape| == |strides| && Positive(shape) && NonNegative(strides) && k <= |shape|
    ensures Span(shape[..k], strides[..k]) <= Span(shape, strides)
  {
    if k == 0 {
      SpanPositive(shape, strides);
    } else {
      PrefixSpan(shape[1..], strides[1..], k - 1);
      assert shape[..k][1..] == shape[1..][..k - 1] && strides[..k][1..] == strides[1..][..k - 1];
    }
  }

  lemma {:induction false} ZeroStrideSpan(shape: seq<int>, strides: seq<int>)
    requires |shape| == |strides| && forall i | 0 <= i < |strides| :: strides[i] == 0
    ensures Span(shape, strides) == 1
  {
    if shape != [] {
      ZeroStrideSpan(shape[1..], strides[1..]);
    }
  }

  /** In a positive shape no group of trailing dimensions outgrows the whole. */
  lemma {:induction false} SuffixProductBound(shape: seq<int>, k: nat)
    requires Positive(shape) && k <= |shape|
    ensures 1 <= Product(shape[k..]) <= Product(shape)
  {
    if k == 0 {
      ProductPositive(shape);
      assert shape[0..] == shape;
    } else {
      SuffixProductBound(shape[1..], k - 1);
      assert shape[1..][k - 1..] == shape[k..];
      var rest := Product(shape[1..]);
      assert rest <= shape[0] * rest;
    }
  }

  lemma {:induction false} PrefixProductBound(shape: seq<int>, k: nat)
    requires Positive(shape) && k <= |shape|
    ensures 1 <= Product(shape[..k]) <= Product(shape)
    decreases |shape| - k
  {
    ProductPositive(shape[..k]);
    if k == |shape| {
      assert shape[..k] == shape;
    } else {
      PrefixProductBound(shape, k + 1);
      ProductAppend(shape[..k], shape[k]);
      assert shape[..k + 1] == shape[..k] + [shape[k]];
      var head := Product(shape[..k]);
      assert head <= head * shape[k];
    }
  }
}
