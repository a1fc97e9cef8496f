/**
  Bounding-box resolution (`get_ndarray_start_stop` in blosc2/ndarray.py): from
  a key of slices and the array shape, the concrete per-axis start and stop and
  the element count of the region between them.
*/
module Region {
  import opened Common
  import opened Product
  import opened Index

  /** The tuples `start` and `stop` and the element count `size`. */
  datatype Box = Box(start: seq<int>, stop: seq<int>, size: int)

  /** `[sp - st for st, sp in zip(start, stop)]`: per-axis lengths, as long as the shorter tuple. */
  function Extents(start: seq<int>, stop: seq<int>): seq<int>
  {
    seq(Min(|start|, |stop|), i requires 0 <= i < Min(|start|, |stop|) => stop[i] - start[i])
  }

  /**
    `get_ndarray_start_stop(ndim, key, shape)`. `start` has one entry per key
    entry; `stop` is built with `zip(key, shape)` and so is as long as the
    shorter of the two; the size multiplies `stop[i] - start[i]` for
    `i < ndim`, which raises IndexError when `ndim` runs past either tuple.
  */
  function GetStartStop(ndim: nat, key: seq<Term>, shape: seq<int>): (r: Result<Box>)
    requires forall i :: 0 <= i < |key| ==> key[i].Slice?
    ensures r.Ok? <==> ndim <= |key| && ndim <= |shape|
    ensures r.Err? ==> r.error == IndexError
    ensures r.Ok? ==> |r.value.start| == |key| && |r.value.stop| == Min(|key|, |shape|)
    ensures r.Ok? ==> forall i :: 0 <= i < |key| ==> r.value.start[i] == key[i].start.GetOr(0)
    ensures r.Ok? ==> forall i :: 0 <= i < |r.value.stop| ==> r.value.stop[i] == key[i].stop.GetOr(shape[i])
    ensures r.Ok? ==> r.value.size == Prod(Extents(r.value.start, r.value.stop)[..ndim])
  {
    var start := seq(|key|, i requires 0 <= i < |key| => StartOf(key[i]));
    var stop := seq(Min(|key|, |shape|), i requires 0 <= i < Min(|key|, |shape|) => StopOf(key[i], shape[i]));
    if ndim <= |start| && ndim <= |stop| then
      var lengths := seq(ndim, i requires 0 <= i < ndim => stop[i] - start[i]);
      assert lengths == Extents(start, stop)[..ndim];
      Ok(Box(start, stop, Prod(lengths)))
    else
      Err(IndexError)
  }

  /**
    The two steps every indexing operation of NDArray performs on an expanded
    key: `process_key`, then `get_ndarray_start_stop` with the array's rank.
    Stated directly in terms of the expanded key.
  */
  function Resolve(expanded: seq<Term>, shape: seq<int>): (b: Box)
    requires |expanded| == |shape|
    ensures |b.start| == |shape| && |b.stop| == |shape|
    ensures forall i :: 0 <= i < |shape| && expanded[i].Int? ==>
              b.start[i] == expanded[i].k && b.stop[i] == expanded[i].k + 1
    ensures forall i :: 0 <= i < |shape| && expanded[i].Slice? ==>
              b.start[i] == StartOf(expanded[i]) && b.stop[i] == StopOf(expanded[i], shape[i])
    ensures b.size == Prod(Extents(b.start, b.stop))
  {
    var p := ProcessKey(expanded);
    var r := GetStartStop(|shape|, p.key, shape);
    assert Extents(r.value.start, r.value.stop)[..|shape|] == Extents(r.value.start, r.value.stop);
    r.value
  }

  /** Every slice of the expanded key has its start at or before its stop. */
  predicate Ordered(expanded: seq<Term>, shape: seq<int>)
    requires |expanded| == |shape|
  {
    forall i :: 0 <= i < |expanded| && expanded[i].Slice? ==> StartOf(expanded[i]) <= StopOf(expanded[i], shape[i])
  }

  /** An integer axis resolves to length 1; the region has a negative length exactly when the key is not ordered. */
  lemma ResolvedExtents(expanded: seq<Term>, shape: seq<int>)
    requires |expanded| == |shape|
    ensures var b := Resolve(expanded, shape);
      && |Extents(b.start, b.stop)| == |shape|
      && (forall i :: 0 <= i < |shape| && expanded[i].Int? ==> Extents(b.start, b.stop)[i] == 1)
      && (Ordered(expanded, shape) <==> forall i :: 0 <= i < |shape| ==> Extents(b.start, b.stop)[i] >= 0)
  {
    var b := Resolve(expanded, shape);
    var ext := Extents(b.start, b.stop);
    if forall i :: 0 <= i < |shape| ==> ext[i] >= 0 {
      forall i | 0 <= i < |shape| && expanded[i].Slice?
        ensures StartOf(expanded[i]) <= StopOf(expanded[i], shape[i])
      {
        assert ext[i] >= 0;
      }
    }
  }

  /**
    For a key a well-behaved expansion produced, the region lies inside the
    array: `0 <= start[i] <= stop[i] <= shape[i]`; its size is never negative
    and is zero exactly when some axis is empty.
  */
  lemma BoxInBounds(expanded: seq<Term>, shape: seq<int>)
    requires Normalized(expanded, shape)
    ensures var b := Resolve(expanded, shape);
      && (forall i :: 0 <= i < |shape| ==> 0 <= b.start[i] <= b.stop[i] <= shape[i])
      && b.size >= 0
      && (b.size == 0 <==> exists i :: 0 <= i < |shape| && b.start[i] == b.stop[i])
  {
    var b := Resolve(expanded, shape);
    var ext := Extents(b.start, b.stop);
    forall i | 0 <= i < |shape| ensures 0 <= b.start[i] <= b.stop[i] <= shape[i] {
      match expanded[i]
      case Int(k) =>
      case Slice(_, _, _) =>
    }
    ProdNonneg(ext);
    ProdZero(ext);
    forall i | 0 <= i < |shape| ensures (ext[i] == 0 <==> b.start[i] == b.stop[i]) {
    }
  }

  /** The entries of `xs` on the axes the mask leaves unset, in order. */
  function Drop(xs: seq<int>, mask: seq<bool>): (r: seq<int>)
    requires |xs| == |mask|
    ensures |r| <= |xs|
  {
    if |xs| == 0 then []
    else Drop(xs[..|xs| - 1], mask[..|xs| - 1]) + (if mask[|xs| - 1] then [] else [xs[|xs| - 1]])
  }

  /** Leaving out factors equal to 1 does not change the product. */
  lemma {:induction false} ProdDropOnes(xs: seq<int>, mask: seq<bool>)
    requires |xs| == |mask|
    requires forall i :: 0 <= i < |xs| && mask[i] ==> xs[i] == 1
    ensures Prod(Drop(xs, mask)) == Prod(xs)
  {
    if |xs| > 0 {
      var n := |xs| - 1;
      var init, initMask, last := xs[..n], mask[..n], xs[n];
      ProdDropOnes(init, initMask);
      var kept := Drop(init, initMask);
      assert Prod(xs) == Prod(init) * last;
      if mask[n] {
        assert Drop(xs, mask) == kept + [];
        assert kept + [] == kept;
      } else {
        assert Drop(xs, mask) == kept + [last];
        ProdSnoc(kept, last);
      }
    }
  }

  /**
    The element count of a region does not depend on whether integer axes are
    kept as length-1 axes or dropped: removing the masked axes leaves `size`.
  */
  lemma SizeWithoutIntegerAxes(expanded: seq<Term>, shape: seq<int>)
    requires |expanded| == |shape|
    ensures var b := Resolve(expanded, shape);
      Prod(Drop(Extents(b.start, b.stop), ProcessKey(expanded).mask)) == b.size
  {
    var b := Resolve(expanded, shape);
    ResolvedExtents(expanded, shape);
    ProdDropOnes(Extents(b.start, b.stop), ProcessKey(expanded).mask);
  }
}
