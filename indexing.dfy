/** The row-major flat index used twice by the source: row `(thread, t)` of
    the per-thread buffer lives at `thread*nt + t`, and phase `(site i,
    momentum k)` lives at `k + num_corr_mom*i`. */
module Indexing {

  /** Position of cell `(hi, lo)` in a row-major layout whose rows are `w` wide. */
  function FlatIndex(w: nat, hi: nat, lo: nat): nat {
    hi * w + lo
  }

  lemma {:induction false} MulMonotone(a: nat, b: nat, c: nat)
    requires a <= b
    ensures a * c <= b * c
  {
    if a < b {
      MulMonotone(a, b - 1, c);
      assert (b - 1) * c + c == b * c;
    }
  }

  /** Every cell of an `h`-row layout lies inside the `h*w` buffer. */
  lemma FlatIndexInRange(w: nat, h: nat, hi: nat, lo: nat)
    requires hi < h && lo < w
    ensures FlatIndex(w, hi, lo) < h * w
  {
    MulMonotone(hi + 1, h, w);
    assert (hi + 1) * w == hi * w + w;
  }

  /** FlatIndexInRange for all cells at once, for use in quantified invariants. */
  lemma AllFlatIndicesInRange(w: nat, h: nat)
    ensures forall hi: nat, lo: nat :: hi < h && lo < w ==> FlatIndex(w, hi, lo) < h * w
  {
    forall hi: nat, lo: nat | hi < h && lo < w
      ensures FlatIndex(w, hi, lo) < h * w
    {
      FlatIndexInRange(w, h, hi, lo);
    }
  }

  /** Distinct cells never share a flat index: each buffer slot belongs to
      exactly one (row, column) pair. */
  lemma FlatIndexInjective(w: nat, hi: nat, lo: nat, hi': nat, lo': nat)
    requires lo < w && lo' < w
    requires FlatIndex(w, hi, lo) == FlatIndex(w, hi', lo')
    ensures hi == hi' && lo == lo'
  {
    if hi < hi' {
      MulMonotone(hi + 1, hi', w);
      assert false;
    } else if hi' < hi {
      MulMonotone(hi' + 1, hi, w);
      assert false;
    }
  }

  /** Every slot of an `h*w` buffer is the flat index of some cell, namely
      `(j / w, j % w)`: together with injectivity, the layout is a bijection. */
  lemma FlatIndexOnto(w: nat, h: nat, j: nat)
    requires j < h * w
    ensures w > 0 && j / w < h && j % w < w && FlatIndex(w, j / w, j % w) == j
  {
    assert w > 0;
    if j / w >= h {
      MulMonotone(h, j / w, w);
      assert false;
    }
  }

  /** Splitting a flat index recovers the cell it came from. */
  lemma FlatIndexSplit(w: nat, hi: nat, lo: nat)
    requires lo < w
    ensures FlatIndex(w, hi, lo) / w == hi && FlatIndex(w, hi, lo) % w == lo
  {
    var j := FlatIndex(w, hi, lo);
    FlatIndexOnto(w, hi + 1, j) by { FlatIndexInRange(w, hi + 1, hi, lo); }
    FlatIndexInjective(w, j / w, j % w, hi, lo);
  }
}
