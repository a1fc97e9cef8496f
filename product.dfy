/** The product of a list of integers, as `prod` in blosc2/ndarray.py computes it. */
module Product {

  /** Specification: the left fold `((1 * xs[0]) * xs[1]) * ...` over unbounded integers. */
  function Prod(xs: seq<int>): int
  {
    if |xs| == 0 then 1 else Prod(xs[..|xs| - 1]) * xs[|xs| - 1]
  }

  /** The accumulator loop of `prod`: start at 1 and multiply in every element in order. */
  method ProdLoop(list: seq<int>) returns (p: int)
    ensures p == Prod(list)
  {
    p := 1;
    for i := 0 to |list|
      invariant p == Prod(list[..i])
    {
      assert list[..i + 1][..i] == list[..i];
      p := p * list[i];
    }
    assert list[..|list|] == list;
  }

  /** The product of a concatenation is the product of the parts. */
  lemma {:induction false} ProdAppend(xs: seq<int>, ys: seq<int>)
    ensures Prod(xs + ys) == Prod(xs) * Prod(ys)
  {
    if |ys| == 0 {
      assert xs + ys == xs;
    } else {
      var init, last := ys[..|ys| - 1], ys[|ys| - 1];
      assert (xs + ys)[..|xs + ys| - 1] == xs + init;
      ProdAppend(xs, init);
      calc {
        Prod(xs + ys);
        Prod(xs + init) * last;
        (Prod(xs) * Prod(init)) * last;
        Prod(xs) * (Prod(init) * last);
        Prod(xs) * Prod(ys);
      }
    }
  }

  /** Appending one factor multiplies the product by it; `prod([]) == 1`. */
  lemma ProdSnoc(xs: seq<int>, x: int)
    ensures Prod([]) == 1
    ensures Prod(xs + [x]) == Prod(xs) * x
  {
    assert (xs + [x])[..|xs|] == xs;
  }

  /** The product is zero exactly when some factor is zero. */
  lemma {:induction false} ProdZero(xs: seq<int>)
    ensures Prod(xs) == 0 <==> exists i :: 0 <= i < |xs| && xs[i] == 0
  {
    if |xs| > 0 {
      var init := xs[..|xs| - 1];
      ProdZero(init);
      if Prod(xs) == 0 {
        if xs[|xs| - 1] != 0 {
          assert Prod(init) == 0;
          var i :| 0 <= i < |init| && init[i] == 0;
          assert xs[i] == 0;
        }
      } else {
        forall i | 0 <= i < |xs| ensures xs[i] != 0 {
          if i < |xs| - 1 {
            assert xs[i] == init[i];
          }
        }
      }
    }
  }

  /** A product of non-negative factors is non-negative. */
  lemma {:induction false} ProdNonneg(xs: seq<int>)
    requires forall i :: 0 <= i < |xs| ==> xs[i] >= 0
    ensures Prod(xs) >= 0
  {
    if |xs| > 0 {
      ProdNonneg(xs[..|xs| - 1]);
    }
  }
}
