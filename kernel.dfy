/** The scatter kernel of `qudaContract`: every site adds its inner product
    times each phase into the row of the thread that handles it, and flags
    its time slice. Also the reference sums the kernel is specified by, and
    the proof that the per-thread split does not change the total. */
module Kernel {
  import opened ComplexArith
  import opened Indexing
  import opened Phase

  /** Some local site lies on time slice `t`. */
  ghost predicate Occupied(sites: seq<Site>, t: int) {
    exists i :: 0 <= i < |sites| && sites[i].t == t
  }

  /** What site `i` adds for momentum `k`: its inner product times its phase. */
  ghost function Term(sites: seq<Site>, vals: seq<Complex>, ft: seq<Complex>, n: nat, i: nat, k: nat): Complex
    requires |vals| == |sites| && |ft| == n * |sites|
    requires i < |sites| && k < n
  {
    FlatIndexInRange(n, |sites|, i, k);
    Mul(vals[i], ft[FlatIndex(n, i, k)])
  }

  /** The partial sum thread `th` accumulates for slice `t`, momentum `k`,
      over the first `m` sites, in site order. */
  ghost function Partial(sites: seq<Site>, thr: seq<nat>, vals: seq<Complex>, ft: seq<Complex>, n: nat,
                         th: nat, t: int, k: nat, m: nat): Complex
    requires |thr| == |sites| && |vals| == |sites| && |ft| == n * |sites|
    requires m <= |sites| && k < n
  {
    if m == 0 then Zero
    else if thr[m - 1] == th && sites[m - 1].t == t then
      Add(Partial(sites, thr, vals, ft, n, th, t, k, m - 1), Term(sites, vals, ft, n, m - 1, k))
    else Partial(sites, thr, vals, ft, n, th, t, k, m - 1)
  }

  /** The sum a single accumulator would hold: every site on slice `t`
      among the first `m`, whatever thread handled it. */
  ghost function SliceSum(sites: seq<Site>, vals: seq<Complex>, ft: seq<Complex>, n: nat, t: int, k: nat, m: nat): Complex
    requires |vals| == |sites| && |ft| == n * |sites|
    requires m <= |sites| && k < n
  {
    if m == 0 then Zero
    else if sites[m - 1].t == t then
      Add(SliceSum(sites, vals, ft, n, t, k, m - 1), Term(sites, vals, ft, n, m - 1, k))
    else SliceSum(sites, vals, ft, n, t, k, m - 1)
  }

  /** The partial sums of threads `0 .. T-1`, added in thread order. */
  ghost function SumPartials(sites: seq<Site>, thr: seq<nat>, vals: seq<Complex>, ft: seq<Complex>, n: nat,
                             threads: nat, t: int, k: nat, m: nat): Complex
    requires |thr| == |sites| && |vals| == |sites| && |ft| == n * |sites|
    requires m <= |sites| && k < n
  {
    if threads == 0 then Zero
    else Add(SumPartials(sites, thr, vals, ft, n, threads - 1, t, k, m),
             Partial(sites, thr, vals, ft, n, threads - 1, t, k, m))
  }

  /** Adding site `m-1` to every thread's partial sum adds its term once to
      the total, exactly when its thread is among the first `threads`. */
  lemma {:induction false} SumPartialsStep(sites: seq<Site>, thr: seq<nat>, vals: seq<Complex>, ft: seq<Complex>, n: nat,
                                           threads: nat, t: int, k: nat, m: nat)
    requires |thr| == |sites| && |vals| == |sites| && |ft| == n * |sites|
    requires 0 < m <= |sites| && k < n
    ensures SumPartials(sites, thr, vals, ft, n, threads, t, k, m) ==
      Add(SumPartials(sites, thr, vals, ft, n, threads, t, k, m - 1),
          if thr[m - 1] < threads && sites[m - 1].t == t then Term(sites, vals, ft, n, m - 1, k) else Zero)
  {
    if threads > 0 {
      SumPartialsStep(sites, thr, vals, ft, n, threads - 1, t, k, m);
    }
  }

  /** The headline property: when every site is handled by one of the
      `threads` threads, the threads' partial sums add up to the plain slice
      sum, whatever the assignment of sites to threads. */
  lemma {:induction false} AssignmentIrrelevant(sites: seq<Site>, thr: seq<nat>, vals: seq<Complex>, ft: seq<Complex>, n: nat,
                                                threads: nat, t: int, k: nat, m: nat)
    requires |thr| == |sites| && |vals| == |sites| && |ft| == n * |sites|
    requires m <= |sites| && k < n
    requires forall i :: 0 <= i < |sites| ==> thr[i] < threads
    ensures SumPartials(sites, thr, vals, ft, n, threads, t, k, m) == SliceSum(sites, vals, ft, n, t, k, m)
  {
    if m == 0 {
      ZeroPartials(sites, thr, vals, ft, n, threads, t, k);
    } else {
      SumPartialsStep(sites, thr, vals, ft, n, threads, t, k, m);
      AssignmentIrrelevant(sites, thr, vals, ft, n, threads, t, k, m - 1);
    }
  }

  lemma {:induction false} ZeroPartials(sites: seq<Site>, thr: seq<nat>, vals: seq<Complex>, ft: seq<Complex>, n: nat,
                                        threads: nat, t: int, k: nat)
    requires |thr| == |sites| && |vals| == |sites| && |ft| == n * |sites| && k < n
    ensures SumPartials(sites, thr, vals, ft, n, threads, t, k, 0) == Zero
  {
    if threads > 0 {
      ZeroPartials(sites, thr, vals, ft, n, threads - 1, t, k);
    }
  }

  /** Two runs over the same sites, with any thread counts and any
      assignments of sites to threads, reduce to the same totals. */
  lemma AssignmentsAgree(sites: seq<Site>, vals: seq<Complex>, ft: seq<Complex>, n: nat, t: int, k: nat,
                         thr1: seq<nat>, threads1: nat, thr2: seq<nat>, threads2: nat)
    requires |vals| == |sites| && |ft| == n * |sites| && k < n
    requires |thr1| == |sites| && forall i :: 0 <= i < |sites| ==> thr1[i] < threads1
    requires |thr2| == |sites| && forall i :: 0 <= i < |sites| ==> thr2[i] < threads2
    ensures SumPartials(sites, thr1, vals, ft, n, threads1, t, k, |sites|) ==
            SumPartials(sites, thr2, vals, ft, n, threads2, t, k, |sites|)
  {
    AssignmentIrrelevant(sites, thr1, vals, ft, n, threads1, t, k, |sites|);
    AssignmentIrrelevant(sites, thr2, vals, ft, n, threads2, t, k, |sites|);
  }

  /** A time slice no local site lies on receives nothing. */
  lemma {:induction false} UnoccupiedSliceSum(sites: seq<Site>, vals: seq<Complex>, ft: seq<Complex>, n: nat, t: int, k: nat, m: nat)
    requires |vals| == |sites| && |ft| == n * |sites|
    requires m <= |sites| && k < n
    requires !Occupied(sites[..m], t)
    ensures SliceSum(sites, vals, ft, n, t, k, m) == Zero
  {
    if m > 0 {
      assert sites[..m][m - 1] == sites[m - 1];
      assert sites[..m - 1] == sites[..m][..m - 1];
      UnoccupiedSliceSum(sites, vals, ft, n, t, k, m - 1);
    }
  }

  /** The inner loop of the site loop: adds `v` times the phases
      `ft[base .. base+n)` into row `row`, cell by cell; nothing else changes. */
  method ScatterSite(q: array2<Complex>, row: nat, v: Complex, ft: array<Complex>, base: nat)
    requires row < q.Length0 && base + q.Length1 <= ft.Length
    modifies q
    ensures forall r, k :: 0 <= r < q.Length0 && 0 <= k < q.Length1 ==>
      q[r, k] == if r == row then Add(old(q[r, k]), Mul(v, ft[base + k])) else old(q[r, k])
  {
    var re := v.re;
    var im := v.im;
    var k := 0;
    while k < q.Length1
      invariant 0 <= k <= q.Length1
      invariant forall r, k' :: 0 <= r < q.Length0 && 0 <= k' < q.Length1 ==>
        q[r, k'] == if r == row && k' < k then Add(old(q[r, k']), Mul(v, ft[base + k'])) else old(q[r, k'])
    {
      var fourier := ft[base + k];
      q[row, k] := Complex(q[row, k].re + (re * fourier.re - im * fourier.im),
                           q[row, k].im + (re * fourier.im + im * fourier.re));
      k := k + 1;
    }
  }

  /** The site loop of `qudaContract`, with the OpenMP schedule given as
      `thr`: site `i` is handled by thread `thr[i]`. Every site flags its
      time slice and adds its inner product times each phase into row
      `thr[i]*nt + t`; each cell of the buffer grows by exactly its thread's
      partial sum. */
  method AccumulateSites(sites: seq<Site>, thr: seq<nat>, vals: seq<Complex>, ft: array<Complex>,
                         n: nat, nt: nat, maxThreads: nat, q: array2<Complex>, nonzero: array<int>)
    requires |thr| == |sites| && |vals| == |sites|
    requires forall i :: 0 <= i < |sites| ==> 0 <= sites[i].t < nt && thr[i] < maxThreads
    requires ft.Length == n * |sites|
    requires q.Length0 == maxThreads * nt && q.Length1 == n
    requires nonzero.Length == nt
    modifies q, nonzero
    ensures forall t :: 0 <= t < nt ==> nonzero[t] == if Occupied(sites, t) then 1 else old(nonzero[t])
    ensures forall th: nat, t: nat, k :: th < maxThreads && t < nt && 0 <= k < n ==>
      FlatIndex(nt, th, t) < q.Length0 &&
      q[FlatIndex(nt, th, t), k] == Add(old(q[FlatIndex(nt, th, t), k]), Partial(sites, thr, vals, ft[..], n, th, t, k, |sites|))
  {
    AllFlatIndicesInRange(nt, maxThreads);
    var i := 0;
    while i < |sites|
      invariant 0 <= i <= |sites|
      invariant forall t :: 0 <= t < nt ==> nonzero[t] == if Occupied(sites[..i], t) then 1 else old(nonzero[t])
      invariant forall th: nat, t: nat, k :: th < maxThreads && t < nt && 0 <= k < n ==>
        q[FlatIndex(nt, th, t), k] == Add(old(q[FlatIndex(nt, th, t), k]), Partial(sites, thr, vals, ft[..], n, th, t, k, i))
    {
      var mythread := thr[i];
      var meson := vals[i];
      var st := sites[i].t;
      nonzero[st] := 1;
      OccupiedExtend(sites, i, nt);
      var row := FlatIndex(nt, mythread, st);
      MulMonotone(i + 1, |sites|, n);
      var base := FlatIndex(n, i, 0);
      assert base + n == (i + 1) * n;
      ScatterSite(q, row, meson, ft, base);
      forall th: nat, t: nat, k | th < maxThreads && t < nt && 0 <= k < n
        ensures q[FlatIndex(nt, th, t), k] == Add(old(q[FlatIndex(nt, th, t), k]), Partial(sites, thr, vals, ft[..], n, th, t, k, i + 1))
      {
        if FlatIndex(nt, th, t) == row {
          FlatIndexInjective(nt, th, t, mythread, st);
        }
      }
      i := i + 1;
    }
    assert sites[..|sites|] == sites;
  }

  /** Flagging slice `sites[i].t` turns "occupied by the first i sites" into
      "occupied by the first i+1 sites". */
  lemma OccupiedExtend(sites: seq<Site>, i: nat, nt: nat)
    requires i < |sites|
    ensures forall t :: 0 <= t < nt ==> (Occupied(sites[..i + 1], t) <==> Occupied(sites[..i], t) || sites[i].t == t)
  {
    forall t | 0 <= t < nt
      ensures Occupied(sites[..i + 1], t) <==> Occupied(sites[..i], t) || sites[i].t == t
    {
      if Occupied(sites[..i + 1], t) {
        var j :| 0 <= j < i + 1 && sites[..i + 1][j].t == t;
        if j < i { assert sites[..i][j] == sites[j]; }
      }
      if Occupied(sites[..i], t) {
        var j :| 0 <= j < i && sites[..i][j].t == t;
        assert sites[..i + 1][j] == sites[j];
      }
      if sites[i].t == t {
        assert sites[..i + 1][i] == sites[i];
      }
    }
  }
}
