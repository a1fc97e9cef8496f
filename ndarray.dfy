/**
  The region-shape logic of the NDArray methods in blosc2/ndarray.py and the
  element-type choice of `full`. Every method here resolves the caller's key
  to a box and hands the box, with a buffer or a mask, to the compiled
  extension; what is modelled is exactly what the Python layer computes
  before that hand-off (the request), not the extension's work.
*/
module NDArray {
  import opened Common
  import opened Product
  import opened Index
  import opened Region

  /** A numpy element type: a fixed-width byte string `S<width>`, the type numpy derives from a Python type, or any other named dtype. */
  datatype DType = FixedBytes(width: nat) | FromPyType(typeName: string) | Named(name: string)

  /** The attributes of an NDArray the modelled methods read: `self.shape` (so `self.ndim == |shape|`) and `self.dtype`. */
  datatype Meta = Meta(shape: seq<nat>, dtype: DType)

  /** A plain numpy buffer: its shape and its elements in row-major order; element values are opaque. */
  datatype Dense<T> = Dense(shape: seq<int>, elems: seq<T>)

  /**
    `np.full(shape, x)` (and `np.zeros(shape)`, which is `np.full(shape, 0)`):
    numpy refuses a negative extent with a ValueError; otherwise the buffer has
    the given shape, `prod(shape)` elements, and every element is `x`.
  */
  function Filled<T>(shape: seq<int>, x: T): (r: Result<Dense<T>>)
    ensures r.Ok? <==> forall i :: 0 <= i < |shape| ==> shape[i] >= 0
    ensures r.Err? ==> r.error == NegativeDimension
    ensures r.Ok? ==> r.value.shape == shape && |r.value.elems| == Prod(shape)
    ensures r.Ok? ==> forall j :: 0 <= j < |r.value.elems| ==> r.value.elems[j] == x
  {
    if forall i :: 0 <= i < |shape| ==> shape[i] >= 0 then
      ProdNonneg(shape);
      Ok(Dense(shape, seq(Prod(shape), _ => x)))
    else
      Err(NegativeDimension)
  }

  /** What `__getitem__` passes to `get_slice_numpy`: the box `(start, stop)` and the zero-filled output buffer. */
  datatype ReadRequest<T> = ReadRequest(start: seq<int>, stop: seq<int>, out: Dense<T>)

  /**
    `NDArray.__getitem__`: resolve the key, discard the mask, allocate a
    zero-filled buffer of shape `stop[i] - start[i]` on every axis (so an
    integer-indexed axis stays in the buffer with length 1) and request the
    region. `zero` is the zero of `self.dtype`.
  */
  function GetItem<T>(a: Meta, expanded: seq<Term>, zero: T): (r: Result<ReadRequest<T>>)
    requires |expanded| == |a.shape|
    ensures r.Ok? <==> Ordered(expanded, a.shape)
    ensures r.Err? ==> r.error == NegativeDimension
    ensures r.Ok? ==>
      var b := Resolve(expanded, a.shape);
      && r.value.start == b.start && r.value.stop == b.stop
      && |r.value.out.shape| == |a.shape|
      && (forall i :: 0 <= i < |a.shape| ==> r.value.out.shape[i] == b.stop[i] - b.start[i])
      && (forall i :: 0 <= i < |a.shape| && expanded[i].Int? ==> r.value.out.shape[i] == 1)
      && |r.value.out.elems| == b.size
      && (forall j :: 0 <= j < |r.value.out.elems| ==> r.value.out.elems[j] == zero)
  {
    var b := Resolve(expanded, a.shape);
    ResolvedExtents(expanded, a.shape);
    var shape := Extents(b.start, b.stop);
    match Filled(shape, zero)
    case Ok(arr) => Ok(ReadRequest(b.start, b.stop, arr))
    case Err(e) => Err(e)
  }

  /** The expansion of the key `...`: one full slice per axis. */
  function WholeKey(shape: seq<nat>): (key: seq<Term>)
    ensures |key| == |shape|
  {
    seq(|shape|, _ => Slice(None, None, None))
  }

  /** Reading `value[...]` of an array requests the whole array: box `[0, shape)` and a buffer of the array's own shape. */
  lemma WholeRead<T>(a: Meta, zero: T)
    ensures GetItem(a, WholeKey(a.shape), zero).Ok?
    ensures var q := GetItem(a, WholeKey(a.shape), zero).value;
      && q.out.shape == a.shape
      && (forall i :: 0 <= i < |a.shape| ==> q.start[i] == 0)
      && q.stop == a.shape
  {
    var key := WholeKey(a.shape);
    assert Ordered(key, a.shape);
    var q := GetItem(a, key, zero).value;
    assert q.out.shape == a.shape;
  }

  /** A value assigned with `a[key] = value`: a Python scalar, another NDArray, or any other buffer-like object. */
  datatype Value<T> = Scalar(x: T) | Array(source: Meta) | Other(data: Dense<T>)

  /** The value `set_slice` receives: a buffer, or the whole-array read that materialises another NDArray. */
  datatype Payload<T> = Values(data: Dense<T>) | WholeArray(read: ReadRequest<T>)

  /** What `__setitem__` passes to `set_slice`: the box `(start, stop)` and the value. */
  datatype WriteRequest<T> = WriteRequest(start: seq<int>, stop: seq<int>, payload: Payload<T>)

  /**
    `NDArray.__setitem__`: resolve the key as `__getitem__` does. A scalar is
    broadcast with `np.full` to the region's shape; another NDArray is first
    read whole with `value[...]`; anything else is passed on unchanged.
    `zero` is the zero of the source array's dtype, used by the whole-array
    read of an NDArray value.
  */
  function SetItem<T>(a: Meta, expanded: seq<Term>, value: Value<T>, zero: T): (r: Result<WriteRequest<T>>)
    requires |expanded| == |a.shape|
    ensures r.Err? <==> value.Scalar? && !Ordered(expanded, a.shape)
    ensures r.Err? ==> r.error == NegativeDimension
    ensures r.Ok? ==> r.value.start == Resolve(expanded, a.shape).start && r.value.stop == Resolve(expanded, a.shape).stop
    ensures r.Ok? && value.Scalar? ==>
      var b := Resolve(expanded, a.shape);
      && r.value.payload.Values?
      && r.value.payload.data.shape == Extents(b.start, b.stop)
      && |r.value.payload.data.shape| == |a.shape|
      && |r.value.payload.data.elems| == b.size
      && (forall j :: 0 <= j < b.size ==> r.value.payload.data.elems[j] == value.x)
    ensures value.Array? ==>
      && GetItem(value.source, WholeKey(value.source.shape), zero).Ok?
      && r.Ok?
      && r.value.payload == WholeArray(GetItem(value.source, WholeKey(value.source.shape), zero).value)
      && (forall i :: 0 <= i < |value.source.shape| ==> r.value.payload.read.start[i] == 0)
      && r.value.payload.read.stop == value.source.shape
      && r.value.payload.read.out.shape == value.source.shape
    ensures r.Ok? && value.Other? ==> r.value.payload == Values(value.data)
  {
    var b := Resolve(expanded, a.shape);
    match value
    case Scalar(x) =>
      ResolvedExtents(expanded, a.shape);
      (match Filled(Extents(b.start, b.stop), x)
       case Ok(d) => Ok(WriteRequest(b.start, b.stop, Values(d)))
       case Err(e) => Err(e))
    case Array(source) =>
      WholeRead(source, zero);
      Ok(WriteRequest(b.start, b.stop, WholeArray(GetItem(source, WholeKey(source.shape), zero).value)))
    case Other(data) =>
      Ok(WriteRequest(b.start, b.stop, Values(data)))
  }

  /** A scalar write fills exactly the buffer a read of the same key allocates. */
  lemma ScalarWriteMatchesRead<T>(a: Meta, expanded: seq<Term>, x: T, zero: T)
    requires |expanded| == |a.shape|
    ensures GetItem(a, expanded, zero).Ok? <==> SetItem(a, expanded, Scalar(x), zero).Ok?
    ensures GetItem(a, expanded, zero).Ok? ==>
      var q := GetItem(a, expanded, zero).value;
      var w := SetItem(a, expanded, Scalar(x), zero).value;
      q.start == w.start && q.stop == w.stop && q.out.shape == w.payload.data.shape
      && |q.out.elems| == |w.payload.data.elems|
  {
    if GetItem(a, expanded, zero).Ok? {
      var q := GetItem(a, expanded, zero).value;
      var w := SetItem(a, expanded, Scalar(x), zero).value;
      var b := Resolve(expanded, a.shape);
      assert q.out.shape == Extents(b.start, b.stop);
    }
  }

  /** What `NDArray.slice` passes to `get_slice`: the box and the integer-axis mask (chunk and block choices are forwarded untouched). */
  datatype SliceRequest = SliceRequest(start: seq<int>, stop: seq<int>, mask: seq<bool>)

  /**
    `NDArray.slice`: the same box as `__getitem__`, with the mask forwarded.
    Each masked axis spans exactly one position, so dropping the masked axes
    from the region's shape leaves its element count unchanged.
  */
  function SliceKey(a: Meta, expanded: seq<Term>): (r: SliceRequest)
    requires |expanded| == |a.shape|
    ensures r.start == Resolve(expanded, a.shape).start && r.stop == Resolve(expanded, a.shape).stop
    ensures |r.mask| == |a.shape|
    ensures forall i :: 0 <= i < |a.shape| ==> (r.mask[i] <==> expanded[i].Int?)
    ensures forall i :: 0 <= i < |a.shape| && r.mask[i] ==> r.stop[i] - r.start[i] == 1
    ensures Prod(Drop(Extents(r.start, r.stop), r.mask)) == Resolve(expanded, a.shape).size
  {
    var p := ProcessKey(expanded);
    var b := Resolve(expanded, a.shape);
    SizeWithoutIntegerAxes(expanded, a.shape);
    SliceRequest(b.start, b.stop, p.mask)
  }

  /** For a key a well-behaved expansion produced, reads and scalar writes never hit numpy's negative-extent error. */
  lemma NormalizedKeySucceeds<T>(a: Meta, expanded: seq<Term>, x: T, zero: T)
    requires Normalized(expanded, a.shape)
    ensures GetItem(a, expanded, zero).Ok?
    ensures SetItem(a, expanded, Scalar(x), zero).Ok?
  {
    forall i | 0 <= i < |expanded| && expanded[i].Slice?
      ensures StartOf(expanded[i]) <= StopOf(expanded[i], a.shape[i])
    {
    }
  }

  /**
    Shape (4, 5, 6) indexed by `(2, 1:4, :)`: the read buffer keeps the
    integer axis as length 1, giving shape (1, 3, 6); `slice` marks that axis
    in its mask, and dropping it leaves (3, 6) with the same 18 elements.
  */
  lemma MixedIndexExample(zero: int)
    ensures var a := Meta([4, 5, 6], Named("int32"));
      var key := [Int(2), Slice(Some(1), Some(4), None), Slice(None, None, None)];
      && GetItem(a, key, zero).Ok?
      && GetItem(a, key, zero).value.out.shape == [1, 3, 6]
      && |GetItem(a, key, zero).value.out.elems| == 18
      && SliceKey(a, key).mask == [true, false, false]
      && Drop(Extents(SliceKey(a, key).start, SliceKey(a, key).stop), SliceKey(a, key).mask) == [3, 6]
  {
    var a := Meta([4, 5, 6], Named("int32"));
    var key := [Int(2), Slice(Some(1), Some(4), None), Slice(None, None, None)];
    var b := Resolve(key, a.shape);
    assert Extents(b.start, b.stop) == [1, 3, 6];
    assert Prod([1, 3, 6]) == 18 by {
      assert [1, 3, 6][..2] == [1, 3];
      assert [1, 3][..1] == [1];
      assert [1][..0] == [];
    }
    var r := SliceKey(a, key);
    assert r.mask == [true, false, false];
    assert Drop([1, 3, 6], [true, false, false]) == [3, 6] by {
      assert [1, 3, 6][1..] == [3, 6];
      assert [true, false, false][1..] == [false, false];
      assert [3, 6][1..] == [6];
      assert [false, false][1..] == [false];
      assert [6][1..] == [];
    }
  }

  /** A fill value for `full`: a Python `bytes` object, or a value of some other Python type. */
  datatype FillValue = BytesFill(data: seq<bv8>) | OtherFill(typeName: string)

  /**
    The dtype `full` creates the array with: a `bytes` fill value always
    gives `S<len(fill_value)>`, whatever dtype was passed; otherwise an
    explicit dtype is kept, and only a missing one is derived from the fill
    value's type.
  */
  function FullDType(fill: FillValue, dtype: Option<DType>): (d: DType)
    ensures fill.BytesFill? ==> d == FixedBytes(|fill.data|)
    ensures fill.OtherFill? && dtype.Some? ==> d == dtype.value
    ensures fill.OtherFill? && dtype.None? ==> d == FromPyType(fill.typeName)
  {
    var chosen := if fill.BytesFill? then Some(FixedBytes(|fill.data|)) else dtype;
    match chosen
    case Some(t) => t
    case None => FromPyType(fill.typeName)
  }

  /** Passing back the dtype `full` chose, as an explicit dtype, chooses it again. */
  lemma FullDTypeStable(fill: FillValue, dtype: Option<DType>)
    ensures FullDType(fill, Some(FullDType(fill, dtype))) == FullDType(fill, dtype)
  {
  }
}
