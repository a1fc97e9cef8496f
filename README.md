# python-blosc2 NDArray indexing: a Dafny model

This project models the index-to-region engine of `blosc2/ndarray.py`. That module's NDArray is
an N-dimensional array stored in compressed chunks. The Python layer does little work of its own.
It turns an index key into a bounding box, then hands the box to the compiled extension
`blosc2_ext`. `get_ndarray_start_stop` also computes the region's element count, but every
NDArray method discards it: only the start and stop tuples reach the extension. Reads send them
with a zero-filled output buffer. Scalar writes send them with a broadcast buffer. `slice` sends
them with an integer-axis mask. The model covers:

- `process_key`: every bare integer `k` of the expanded key becomes the unit slice
  `slice(k, k+1, None)`, and a mask records which axes were integers (`Index.ProcessKey`). The mask
  loses nothing: `Index.Restore` undoes the processing, and round trips are proved in both
  directions.
- `prod`: a recursive left-fold specification `Product.Prod` and the accumulator loop
  `Product.ProdLoop`, proved equal. The lemmas cover concatenation, a zero factor and sign.
- `get_ndarray_start_stop`: `Region.GetStartStop` gives the per-axis start (a missing start is 0)
  and stop (a missing stop is the axis extent), plus the size. It keeps Python's `zip` truncation
  and the IndexError raised when `ndim` runs past a tuple. `Region.Resolve` chains `process_key`
  and `get_ndarray_start_stop`, the way every NDArray method calls them. Its result is stated
  directly in terms of the expanded key.
- The region-shape use sites:
  - `__getitem__` (`NDArray.GetItem`) allocates a buffer of shape `stop - start`.
  - `__setitem__` (`NDArray.SetItem`) broadcasts a scalar to that shape, reads another NDArray
    whole, or passes a buffer on unchanged.
  - `slice` (`NDArray.SliceKey`) forwards the mask.
- `full`'s element-type choice (`NDArray.FullDType`).

Python integers are unbounded, and so are Dafny's `int`: no wrap-around is involved. Element values
are an opaque type parameter. The zero of the array's dtype, which `np.zeros` writes, is a
parameter. numpy's `np.zeros`/`np.full` are modelled only by their shape and element count
(`NDArray.Filled`), and by the ValueError numpy raises for a negative extent.

The key first goes through `ndindex.ndindex(key).expand(shape)`, a foreign library. The model takes
that expansion's result as its input: one `Index.Term` (an integer or a slice) per axis. The only
requirement is that its length equals the rank. `Index.Normalized` describes a well-behaved
expansion, with integers inside the axis and `0 <= start <= stop <= extent`. It is the hypothesis
of the bounds lemmas, not a precondition of the operations.

Two behaviours of the code are worth stating outright. First, integer-indexed axes are not
removed from a read's shape. `__getitem__` discards the mask (blosc2/ndarray.py:74), so its buffer
keeps those axes with length 1. `NDArray.MixedIndexExample` shows this for shape (4, 5, 6) and key
`(2, 1:4, :)`: the read buffer has shape (1, 3, 6), and only `slice` forwards the mask that would
reduce it to (3, 6). Second, the Python layer does not clamp a slice whose start exceeds its stop.
The extent `stop - start` becomes negative, and numpy's allocation in `__getitem__` and in scalar
`__setitem__` rejects it (`Error.NegativeDimension`) instead of giving an empty region.

## Model

| member | source | states |
|---|---|---|
| `Product.ProdLoop` | blosc2/ndarray.py:17-21 | the accumulator loop returns exactly the product `Prod` of the list |
| `Product.ProdSnoc` | blosc2/ndarray.py:18-20 | `prod([]) == 1` and appending a factor multiplies the product by it |
| `Product.ProdAppend` | blosc2/ndarray.py:17-21 | the product of a concatenation is the product of the two parts |
| `Product.ProdZero` | blosc2/ndarray.py:17-21 | the product is 0 if and only if some factor is 0 |
| `Product.ProdNonneg` | blosc2/ndarray.py:17-21 | non-negative factors give a non-negative product |
| `Index.ProcessKey` | blosc2/ndarray.py:10-14 | one mask entry and one key entry per expanded entry; `mask[i]` holds iff entry i is an integer; every key entry is a slice; slices pass through unchanged; integer `k` becomes `slice(k, k+1, None)` |
| `Index.Restore` | blosc2/ndarray.py:12-13 | rebuilds an expanded key from a key and mask, with integers exactly where the mask is set |
| `Index.RestoreProcessKey` | blosc2/ndarray.py:12-13 | processing loses nothing: `Restore(ProcessKey(e)) == e`, and the processed pair is well masked |
| `Index.ProcessKeyRestore` | blosc2/ndarray.py:12-13 | every well-masked key and mask pair is the processing of the key `Restore` gives back |
| `Region.GetStartStop` | blosc2/ndarray.py:24-30 | start has one entry per key entry (missing start is 0); stop has one per `zip(key, shape)` pair (missing stop is the extent); size is the product of the first `ndim` lengths; fails, always with IndexError, exactly when `ndim` exceeds either tuple |
| `Region.Resolve` | blosc2/ndarray.py:74-75 | process_key then get_ndarray_start_stop: an integer axis `k` gives `[k, k+1)`; a slice axis gives its start or 0 and its stop or the extent; size is the product of all lengths |
| `Region.ResolvedExtents` | blosc2/ndarray.py:24-28 | an integer axis has length exactly 1; all lengths are non-negative iff every slice has start at or before stop |
| `Region.BoxInBounds` | blosc2/ndarray.py:25-28 | for a well-behaved expansion `0 <= start[i] <= stop[i] <= shape[i]`, size is non-negative, and size is 0 iff some axis is empty |
| `Region.ProdDropOnes` | blosc2/ndarray.py:17-21 | leaving out factors equal to 1 does not change the product |
| `Region.SizeWithoutIntegerAxes` | blosc2/ndarray.py:180-183 | dropping the integer (masked) axes from the region's lengths leaves the product equal to size |
| `NDArray.Filled` | blosc2/ndarray.py:100-102 | numpy's full/zeros fails iff some extent is negative; otherwise the buffer has that shape and `prod(shape)` elements, all equal to the fill value |
| `NDArray.GetItem` | blosc2/ndarray.py:74-80 | requests the resolved box with a zero-filled buffer of rank ndim and per-axis shape `stop - start`; integer axes stay with length 1; the buffer holds `size` elements; fails only when some slice has start after stop |
| `NDArray.WholeKey` | blosc2/ndarray.py:103-104 | the expansion of `...` has one entry per axis |
| `NDArray.WholeRead` | blosc2/ndarray.py:103-104 | `value[...]` requests box `[0, shape)` with a buffer of the array's own shape, and never fails |
| `NDArray.SetItem` | blosc2/ndarray.py:96-106 | writes to the same box as a read; a scalar is broadcast to exactly the region's shape with `size` copies of it; an NDArray value becomes exactly the whole-array read `value[...]`, box `[0, shape)`; errors are only numpy's negative-extent error; another value passes on unchanged; fails only for a scalar and a slice with start after stop |
| `NDArray.ScalarWriteMatchesRead` | blosc2/ndarray.py:100-102 | a scalar write succeeds iff the read of the same key does, and fills a buffer of the same box, shape and element count |
| `NDArray.SliceKey` | blosc2/ndarray.py:180-183 | `slice` forwards the same box and a mask with one entry per axis, set iff the axis was an integer; masked axes span one position; dropping them keeps size |
| `NDArray.NormalizedKeySucceeds` | blosc2/ndarray.py:74-78 | a well-behaved expansion never makes a read or a scalar write fail |
| `NDArray.MixedIndexExample` | blosc2/ndarray.py:74-78 | shape (4,5,6) with key `(2, 1:4, :)` gives a read buffer of shape (1,3,6) with 18 elements; `slice`'s mask is (T,F,F), and dropping it gives (3,6) |
| `NDArray.FullDType` | blosc2/ndarray.py:279-282 | a bytes fill value gives `S<len>` whatever the dtype; otherwise an explicit dtype is kept, and only a missing one comes from the fill value's type |
| `NDArray.FullDTypeStable` | blosc2/ndarray.py:279-282 | passing back the chosen dtype explicitly chooses it again |

## Left out

- The expansion `ndindex.ndindex(key).expand(shape)` (blosc2/ndarray.py:11) is a foreign library. It handles ellipsis expansion, negative rebasing, clamping and array indices. The model starts from its result, a sequence of integers and slices with one per axis. The Python layer never reads a slice's step: a non-unit step reaching it is ignored, and the box still spans `[start, stop)` on that axis. Integer-array and boolean-array indices, which it may also produce, are not modelled.
- NDArray.WholeKey: the expansion of `...` is taken to be a full slice with no bounds on every axis, which resolves to `[0, extent)`. The library's exact raw form for it is not modelled.
- All `blosc2_ext` calls are foreign compiled code and not modelled: `get_slice_numpy`, `set_slice`, `get_slice`, `to_buffer`, `copy`, `resize`, `squeeze`, and the constructors `empty`, `zeros`, `full`, `from_buffer` and `asarray`. Only the arguments the Python layer computes for them are modelled. The data actually read or written is left out, and so is `set_slice`'s check of a value's shape.
- `compute_chunks_blocks` (imported at blosc2/ndarray.py:4) is not part of this model: its source is not available. `slice`'s `chunks`, `blocks` and keyword arguments are forwarded untouched, so they do not appear in `NDArray.SliceKey`.
- `np.zeros`/`np.full`: only the shape, the element count, the fill value and the negative-extent error are modelled. dtype conversion of the fill value and float values are not.
- NDArray.FullDType: numpy's mapping from a Python type to a dtype (`np.dtype(type(fill_value))`) stays symbolic (`FromPyType`). The model does not say which concrete dtype, such as `int64` or `float64`, it yields.
- NDArray.SetItem: the Python scalar test `isinstance(value, (int, float, bool))` becomes the `Scalar` case of a value datatype. Which Python objects fall into which case is not modelled.
- `NDArray.__init__` (blosc2/ndarray.py:34-36) wraps an SChunk view. `info` and `info_items` (blosc2/ndarray.py:38-58) format human-readable reports, including the float compression ratio. Both are foreign plumbing and output formatting.
- The module-level `empty`, `zeros`, `from_buffer` and `asarray` (blosc2/ndarray.py:190-241, 288-321, 346-376) only call the chunk planner and then the extension, with fixed default dtypes. The module-level `copy` (blosc2/ndarray.py:324-343) only calls the array's own `copy` method, which hands the work to the extension. Nothing in any of them is computed by the Python layer.
