/**
  Key post-processing (`process_key` in blosc2/ndarray.py).

  The key a caller writes is first expanded by the ndindex library to exactly
  one entry per axis; that expansion is foreign code and is not part of this
  model. What arrives here is its result: a sequence of bare integers and
  slices, one per axis.
*/
module Index {
  import opened Common

  /** One entry of an expanded key: a bare integer or a slice `start:stop:step`. */
  datatype Term =
    | Int(k: int)
    | Slice(start: Option<int>, stop: Option<int>, step: Option<int>)

  /** The result of `process_key`: a key made of slices only, and the integer-axis mask. */
  datatype Processed = Processed(key: seq<Term>, mask: seq<bool>)

  /** The unit slice `slice(k, k+1, None)` that stands for the bare integer `k`. */
  function UnitSlice(k: int): Term
  {
    Slice(Some(k), Some(k + 1), None)
  }

  /** A slice is kept as it is; an integer becomes its unit slice. */
  function AsSlice(t: Term): Term
  {
    match t
    case Int(k) => UnitSlice(k)
    case Slice(_, _, _) => t
  }

  /**
    `process_key` after expansion: the mask records which axes were given a
    bare integer, and every such integer is replaced by its unit slice.
  */
  function ProcessKey(expanded: seq<Term>): (r: Processed)
    ensures |r.mask| == |expanded| && |r.key| == |expanded|
    ensures forall i :: 0 <= i < |expanded| ==> (r.mask[i] <==> expanded[i].Int?)
    ensures forall i :: 0 <= i < |expanded| ==> r.key[i].Slice?
    ensures forall i :: 0 <= i < |expanded| && expanded[i].Slice? ==> r.key[i] == expanded[i]
    ensures forall i :: 0 <= i < |expanded| && expanded[i].Int? ==>
              r.key[i] == Slice(Some(expanded[i].k), Some(expanded[i].k + 1), None)
  {
    var mask := seq(|expanded|, i requires 0 <= i < |expanded| => expanded[i].Int?);
    var key := seq(|expanded|, i requires 0 <= i < |expanded| => AsSlice(expanded[i]));
    Processed(key, mask)
  }

  /**
    What a pair (key, mask) can come from: every masked entry is a unit slice
    with no step, every unmasked entry is a slice.
  */
  ghost predicate WellMasked(p: Processed)
  {
    && |p.key| == |p.mask|
    && forall i :: 0 <= i < |p.key| ==>
         if p.mask[i] then p.key[i].Slice? && p.key[i].start.Some? && p.key[i] == UnitSlice(p.key[i].start.value)
         else p.key[i].Slice?
  }

  /** Inverse of `ProcessKey`: turn every masked unit slice back into its integer. */
  function Restore(p: Processed): (expanded: seq<Term>)
    requires WellMasked(p)
    ensures |expanded| == |p.key|
    ensures forall i :: 0 <= i < |p.key| ==> (expanded[i].Int? <==> p.mask[i])
  {
    seq(|p.key|, i requires 0 <= i < |p.key| => if p.mask[i] then Int(p.key[i].start.value) else p.key[i])
  }

  /** The mask loses nothing: processing an expanded key can be undone. */
  lemma RestoreProcessKey(expanded: seq<Term>)
    ensures WellMasked(ProcessKey(expanded))
    ensures Restore(ProcessKey(expanded)) == expanded
  {
  }

  /** Every well-masked pair is the processing of exactly the key `Restore` gives back. */
  lemma ProcessKeyRestore(p: Processed)
    requires WellMasked(p)
    ensures ProcessKey(Restore(p)) == p
  {
    var e := Restore(p);
    var q := ProcessKey(e);
    forall i | 0 <= i < |p.key| ensures q.key[i] == p.key[i] && q.mask[i] == p.mask[i] {
    }
  }

  /** Each axis's concrete start: a missing start means 0. */
  function StartOf(t: Term): int
    requires t.Slice?
  {
    t.start.GetOr(0)
  }

  /** Each axis's concrete stop: a missing stop means the axis extent. */
  function StopOf(t: Term, extent: int): int
    requires t.Slice?
  {
    t.stop.GetOr(extent)
  }

  /**
    What a well-behaved expansion yields for `shape`: one entry per axis,
    integers inside the axis, slices with `0 <= start <= stop <= extent`.
    The operations do not require it; it is the hypothesis of the bounds lemmas.
  */
  ghost predicate Normalized(expanded: seq<Term>, shape: seq<int>)
  {
    && |expanded| == |shape|
    && forall i :: 0 <= i < |expanded| ==>
         match expanded[i]
         case Int(k) => 0 <= k < shape[i]
         case Slice(_, _, _) => 0 <= StartOf(expanded[i]) <= StopOf(expanded[i], shape[i]) <= shape[i]
  }
}
