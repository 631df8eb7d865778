/**
  Writing a CPU tensor into a message and reading it back through the view.
 */
module TensorRoundTrip {
  import opened Outcomes
  import opened MachineIntegers
  import opened TensorLayout
  import opened TensorSizes
  import opened TensorMessages

  /** A tensor is its shape, its dtype, and the bytes of each element. */
  datatype Tensor = Tensor(shape: seq<Int64>, dtype: Dtype, element: seq<int> -> seq<bv8>) {
    ghost predicate Valid() {
      && NonNegative(shape) && ItemSize(dtype).Some?
      && Product(shape) * Item() <= SIZE_MAX
      && forall index | InShape(index, shape) :: |element(index)| == Item()
    }

    function Item(): Size {
      if ItemSize(dtype).Some? then ItemSize(dtype).value else 1
    }

    function Count(): (count: nat)
      requires Valid()
      ensures count == Product(shape) && count * Item() <= SIZE_MAX
    {
      ProductNonNegative(shape);
      Product(shape)
    }
  }

  function Join(blocks: seq<seq<bv8>>): seq<bv8> {
    if blocks == [] then [] else Join(blocks[..|blocks| - 1]) + blocks[|blocks| - 1]
  }

  lemma OneMore(n: int, item: int)
    ensures (n + 1) * item == n * item + item
  {
  }

  lemma {:induction false} JoinLength(blocks: seq<seq<bv8>>, item: nat)
    requires forall i | 0 <= i < |blocks| :: |blocks[i]| == item
    ensures |Join(blocks)| == |blocks| * item
  {
    if blocks != [] {
      JoinLength(blocks[..|blocks| - 1], item);
      OneMore(|blocks| - 1, item);
    }
  }

  /** A block stands right after the blocks before it. */
  lemma {:induction false} JoinAt(blocks: seq<seq<bv8>>, n: nat)
    requires n < |blocks|
    ensures var start := |Join(blocks[..n])|;
            start + |blocks[n]| <= |Join(blocks)| && Join(blocks)[start..start + |blocks[n]|] == blocks[n]
  {
    var last := |blocks| - 1;
    if n < last {
      JoinAt(blocks[..last], n);
      assert blocks[..last][..n] == blocks[..n];
      var start := |Join(blocks[..n])|;
      assert Join(blocks)[start..start + |blocks[n]|] == Join(blocks[..last])[start..start + |blocks[n]|];
    }
  }

  /** The elements in row-major order. */
  function Elementwise(t: Tensor): seq<seq<bv8>>
    requires t.Valid()
  {
    seq(t.Count(), n requires 0 <= n < t.Count() => t.element(Unravel(n, t.shape)))
  }

  /** The bytes of `source.contiguous()`. */
  function Contiguous(t: Tensor): (bytes: seq<bv8>)
    requires t.Valid()
    ensures |bytes| == t.Count() * t.Item()
  {
    ContiguousLength(t);
    Join(Elementwise(t))
  }

  lemma ContiguousLength(t: Tensor)
    requires t.Valid()
    ensures |Join(Elementwise(t))| == t.Count() * t.Item()
    ensures forall n | 0 <= n <= t.Count() :: |Join(Elementwise(t)[..n])| == n * t.Item()
  {
    forall n | 0 <= n < t.Count() ensures |Elementwise(t)[n]| == t.Item() {
      OffsetOfUnravel(n, t.shape);
    }
    JoinLength(Elementwise(t), t.Item());
    forall n | 0 <= n <= t.Count() ensures |Join(Elementwise(t)[..n])| == n * t.Item() {
      JoinLength(Elementwise(t)[..n], t.Item());
    }
  }

  lemma FitsInt64(shape: seq<int>)
    requires NonNegative(shape) && StridesFit(shape, 0)
    ensures forall i | 0 <= i < |shape| :: 0 <= RowMajor(shape)[i] <= INT64_MAX
  {
    RowMajorNonNegative(shape);
    forall i | 0 <= i < |shape| ensures RowMajor(shape)[i] <= INT64_MAX {
      RowMajorAt(shape, i);
    }
  }

  /** The message that holds a tensor at the start of its storage. */
  function Holding(t: Tensor, data: Bytes): View
    requires NonNegative(t.shape) && StridesFit(t.shape, 0)
  {
    FitsInt64(t.shape);
    View(t.shape, RowMajor(t.shape), t.dtype, 0, data)
  }

  /** The bytes of one element of a view. */
  function ReadElement(view: View, index: seq<int>): seq<bv8>
    requires Accepts(view) && InShape(index, view.shape)
  {
    AcceptedViewIsSafe(view, index);
    var start := view.byteOffset + Offset(index, NormalStrides(view)) * ItemSize(view.dtype).value;
    view.data[start..start + ItemSize(view.dtype).value]
  }

  /** The message object that the C++ functions fill in place. */
  class TensorMsg {
    var shape: seq<Int64>
    var strides: seq<Int64>
    var dtype: Dtype
    var byteOffset: Size
    var data: Bytes

    constructor ()
      ensures Fields() == View([], [], Dtype(0, 0, 0), 0, [])
    {
      shape, strides, dtype, byteOffset, data := [], [], Dtype(0, 0, 0), 0, [];
    }

    function Fields(): View
      reads this
    {
      View(shape, strides, dtype, byteOffset, data)
    }

    /** `set_metadata`: only the shape is set when the strides do not fit. */
    method SetMetadata(t: Tensor) returns (r: Result<(), Fault>)
      modifies this`shape, this`strides, this`dtype, this`byteOffset
      ensures r.Ok? <==> NonNegative(t.shape) && StridesFit(t.shape, 0)
      ensures r.Ok? ==> Fields() == Holding(t, data)
      ensures r.Err? ==> r.error in {Negative, Overflow}
      ensures shape == t.shape
      ensures r.Err? ==> strides == old(strides) && dtype == old(dtype) && byteOffset == old(byteOffset)
    {
      shape := t.shape;
      var s := ContiguousStrides(shape);
      if s.Err? {
        return Err(s.error);
      }
      strides := s.value;
      dtype := t.dtype;
      byteOffset := 0;
      return Ok(());
    }

    /** `CpuConversionPlugin::copy_to`. */
    method CopyTo(t: Tensor)
      requires t.Valid() && t.Count() * t.Item() <= |data|
      modifies this`data
      ensures data == Contiguous(t) + old(data)[t.Count() * t.Item()..]
    {
      var bytes := Contiguous(t);
      data := bytes + data[|bytes|..];
    }

    /** `to_tensor_msg` into an existing message, for a tensor in host memory. */
    method ToTensorMsg(t: Tensor) returns (r: Result<(), Fault>)
      requires t.Valid()
      modifies this
      ensures t.Count() == 0 ==> r == Ok(()) && Fields() == old(Fields())
      ensures r == Err(ExceedsStorage) <==> t.Count() * t.Item() > |old(data)|
      ensures r == Err(ExceedsStorage) ==> Fields() == old(Fields())
      ensures r.Ok? <==> t.Count() == 0 || (t.Count() * t.Item() <= |old(data)| && StridesFit(t.shape, 0))
      ensures r.Err? && r.error != ExceedsStorage ==>
                && data == Contiguous(t) + old(data)[t.Count() * t.Item()..]
                && Fields() == old(Fields()).(shape := t.shape, data := data)
      ensures |old(data)| <= INT64_MAX ==> r.Ok? || r == Err(ExceedsStorage)
      ensures r.Ok? && t.Count() != 0 ==>
                && data == Contiguous(t) + old(data)[t.Count() * t.Item()..]
                && StridesFit(t.shape, 0) && Fields() == Holding(t, data)
                && Accepts(Fields())
                && forall index | InShape(index, t.shape) :: ReadElement(Fields(), index) == t.element(index)
    {
      if t.Count() == 0 {
        return Ok(());
      }
      var required := t.Count() * t.Item();
      if required > |data| {
        return Err(ExceedsStorage);
      }
      StorageBoundsStrides(t, |data|);
      ghost var rest := data[required..];
      CopyTo(t);
      r := SetMetadata(t);
      if r.Ok? {
        WrittenViewReadsBack(t, data, rest);
      }
    }
  }

  /** A nonempty tensor that fits 2^63 - 1 bytes has strides that fit too. */
  lemma StorageBoundsStrides(t: Tensor, storage: nat)
    requires t.Valid() && t.Count() != 0 && t.Count() * t.Item() <= storage
    ensures storage <= INT64_MAX ==> StridesFit(t.shape, 0)
  {
    PositiveUnlessEmpty(t.shape);
    GuardsExact(t.shape);
    assert t.Count() <= t.Count() * t.Item();
  }

  lemma {:induction false} PositiveUnlessEmpty(shape: seq<int>)
    requires NonNegative(shape) && Product(shape) != 0
    ensures Positive(shape)
  {
    forall i | 0 <= i < |shape| ensures 0 < shape[i] {
      if shape[i] == 0 {
        ProductZero(shape, i);
      }
    }
  }

  /** A view with row-major strides from the start of storage that holds all the
      elements passes the check, and requires exactly their bytes. */
  lemma RowMajorViewAccepted(view: View)
    requires NonNegative(view.shape) && StridesFit(view.shape, 0) && view.strides == RowMajor(view.shape) && view.byteOffset == 0
    requires ItemSize(view.dtype).Some?
    requires Product(view.shape) * ItemSize(view.dtype).value <= |view.data|
    ensures Accepts(view) && Elements(view.shape, NormalStrides(view)) == Product(view.shape)
  {
    var shape, strides, z := view.shape, view.strides, FirstZero(view.shape);
    RowMajorNonNegative(shape);
    if z < |shape| {
      ProductZero(shape, z);
      forall k | 0 <= k <= z ensures Span(shape[..k], strides[..k]) == 1 {
        forall i | 0 <= i < k ensures strides[..k][i] == 0 {
          RowMajorAt(shape, i);
          ProductZero(shape[i + 1..], z - i - 1);
        }
        ZeroStrideSpan(shape[..k], strides[..k]);
      }
    } else {
      RowMajorSpan(shape);
      assert shape[0..] == shape;
      forall k | 0 <= k <= z ensures Span(shape[..k], strides[..k]) <= SIZE_MAX {
        PrefixSpan(shape, strides, k);
      }
    }
  }

  /** What was written at an index is what the view finds there, whatever the
      message's storage holds beyond the tensor. */
  lemma WrittenViewReadsBack(t: Tensor, data: Bytes, rest: seq<bv8>)
    requires t.Valid() && t.Count() != 0 && StridesFit(t.shape, 0)
    requires data == Contiguous(t) + rest
    ensures Accepts(Holding(t, data))
    ensures forall index | InShape(index, t.shape) :: ReadElement(Holding(t, data), index) == t.element(index)
  {
    var view := Holding(t, data);
    RowMajorViewAccepted(view);
    forall index | InShape(index, t.shape) ensures ReadElement(view, index) == t.element(index) {
      UnravelOfOffset(index, t.shape);
      AcceptedViewIsSafe(view, index);
      var n := Offset(index, RowMajor(t.shape));
      JoinAt(Elementwise(t), n);
      assert Elementwise(t)[n] == t.element(index);
      ContiguousLength(t);
      var start := |Join(Elementwise(t)[..n])|;
      assert data[start..start + t.Item()] == Contiguous(t)[start..start + t.Item()];
    }
  }

  /** `allocate_tensor_msg` on host storage. */
  method AllocateTensorMsg(shape: seq<Int64>, dtype: Dtype) returns (r: Result<TensorMsg, Fault>)
    ensures r.Ok? <==>
              && NonNegative(shape) && StridesFit(shape, 0) && ItemSize(dtype).Some?
              && CountFits(shape, |shape|) && Product(shape) * ItemSize(dtype).value <= SIZE_MAX
    ensures r.Ok? ==>
              && fresh(r.value)
              && var view := r.value.Fields();
                 && view.shape == shape && view.strides == RowMajor(shape) && view.dtype == dtype && Accepts(view)
                 && |view.data| == Product(shape) * ItemSize(dtype).value
                 && view.byteOffset + Elements(shape, NormalStrides(view)) * ItemSize(dtype).value == |view.data|
  {
    var strides := ContiguousStrides(shape);
    if strides.Err? {
      return Err(strides.error);
    }
    var item := ItemSize(dtype);
    if item.None? {
      return Err(UnsupportedDtype);
    }
    var msg := new TensorMsg();
    msg.shape, msg.strides, msg.dtype, msg.byteOffset := shape, strides.value, dtype, 0;
    var bytes := ByteCount(shape, item.value);
    if bytes.Err? {
      return Err(bytes.error);
    }
    msg.data := seq(bytes.value, _ => 0);
    RowMajorViewAccepted(msg.Fields());
    return Ok(msg);
  }

  lemma FitsUnlessTooMany(t: Tensor)
    requires t.Valid() && t.Count() != 0
    ensures CountFits(t.shape, |t.shape|)
    ensures StridesFit(t.shape, 0) <==> Product(t.shape) <= INT64_MAX
  {
    PositiveUnlessEmpty(t.shape);
    GuardsExact(t.shape);
    assert t.Count() <= t.Count() * t.Item();
  }

  /** `to_tensor_msg` by value: an empty message for an empty tensor, and for any
      other one that can be described a message that reads back as the tensor. */
  method NewTensorMsg(t: Tensor) returns (r: Result<TensorMsg, Fault>)
    requires t.Valid()
    ensures r.Ok? <==> t.Count() == 0 || Product(t.shape) <= INT64_MAX
    ensures r.Ok? ==> fresh(r.value)
    ensures r.Ok? && t.Count() == 0 ==> r.value.Fields() == View([], [], Dtype(0, 0, 0), 0, [])
    ensures r.Ok? && t.Count() != 0 ==>
              var view := r.value.Fields();
              && Accepts(view) && view.shape == t.shape && view.dtype == t.dtype && view.data == Contiguous(t)
              && forall index | InShape(index, t.shape) :: ReadElement(view, index) == t.element(index)
  {
    if t.Count() == 0 {
      var empty := new TensorMsg();
      return Ok(empty);
    }
    FitsUnlessTooMany(t);
    r := AllocateTensorMsg(t.shape, t.dtype);
    if r.Ok? {
      var filled := r.value.ToTensorMsg(t);
      assert filled.Ok?;
      assert Contiguous(t) + [] == Contiguous(t);
    }
  }
}
