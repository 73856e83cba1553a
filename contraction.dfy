/** `qudaContract`: builds the zeroed thread buffer and the phase table,
    runs the site loop, reduces the thread rows into the caller's correlator
    and reports the flop count. */
module Contraction {
  import opened ComplexArith
  import opened Indexing
  import opened Phase
  import opened Kernel
  import opened Accumulator

  /** The caller's configuration: the requested momenta (so `num_corr_mom`
      is `|moms|`) and the coordinate origin of the phases. */
  datatype ContractArgs = ContractArgs(moms: seq<Momentum>, r0: Vec3)

  /** The momentum-projected correlator contribution for slice `t` and
      momentum `k`: over the first `m` sites on slice `t`, in site order,
      the sum of each site's inner product times its phase. */
  ghost function Projected(trig: Trig, lat: Lattice, args: ContractArgs, sites: seq<Site>, vals: seq<Complex>,
                           t: int, k: nat, m: nat): Complex
    requires |vals| == |sites| && m <= |sites| && k < |args.moms|
    requires m == 0 || ValidMomentum(args.moms[k])
  {
    if m == 0 then Zero
    else if sites[m - 1].t == t then
      Add(Projected(trig, lat, args, sites, vals, t, k, m - 1),
          Mul(vals[m - 1], SitePhase(trig, lat, args.r0, sites[m - 1], args.moms[k]).value))
    else Projected(trig, lat, args, sites, vals, t, k, m - 1)
  }

  /** The plain sum of the inner products of the first `m` sites on slice `t`. */
  ghost function PlainSum(sites: seq<Site>, vals: seq<Complex>, t: int, m: nat): Complex
    requires |vals| == |sites| && m <= |sites|
  {
    if m == 0 then Zero
    else if sites[m - 1].t == t then Add(PlainSum(sites, vals, t, m - 1), vals[m - 1])
    else PlainSum(sites, vals, t, m - 1)
  }

  /** Summing the phase table as the kernel reads it is the projection. */
  lemma {:induction false} SliceSumIsProjected(trig: Trig, lat: Lattice, args: ContractArgs, sites: seq<Site>, vals: seq<Complex>,
                                               t: int, k: nat, m: nat)
    requires |vals| == |sites| && m <= |sites| && k < |args.moms|
    requires AllValid(args.moms)
    ensures SliceSum(sites, vals, PhaseTable(trig, lat, args.r0, sites, args.moms), |args.moms|, t, k, m)
            == Projected(trig, lat, args, sites, vals, t, k, m)
  {
    if m > 0 {
      PhaseTableAt(trig, lat, args.r0, sites, args.moms, m - 1, k);
      SliceSumIsProjected(trig, lat, args, sites, vals, t, k, m - 1);
    }
  }

  /** Where every site's phase for momentum `k` is 1, the projection is the
      plain per-slice sum of the inner products. */
  lemma {:induction false} UnitPhaseProjection(trig: Trig, lat: Lattice, args: ContractArgs, sites: seq<Site>, vals: seq<Complex>,
                                               t: int, k: nat, m: nat)
    requires |vals| == |sites| && m <= |sites| && k < |args.moms| && ValidMomentum(args.moms[k])
    requires forall i :: 0 <= i < |sites| ==> SitePhase(trig, lat, args.r0, sites[i], args.moms[k]) == Ok(One)
    ensures Projected(trig, lat, args, sites, vals, t, k, m) == PlainSum(sites, vals, t, m)
  {
    if m > 0 {
      MulOneRight(vals[m - 1]);
      UnitPhaseProjection(trig, lat, args, sites, vals, t, k, m - 1);
    }
  }

  /** ZeroMomentumPhase at every local site at once. */
  lemma AllZeroMomentumPhases(trig: Trig, lat: Lattice, r0: Vec3, sites: seq<Site>, m: Momentum)
    requires m == Momentum(0, 0, 0, EVENANDODD, EVENANDODD, EVENANDODD)
    requires forall l :: trig.cos(l, 0) == 1.0 && trig.sin(l, 0) == 0.0
    ensures forall i :: 0 <= i < |sites| ==> SitePhase(trig, lat, r0, sites[i], m) == Ok(One)
  {
    forall i | 0 <= i < |sites|
      ensures SitePhase(trig, lat, r0, sites[i], m) == Ok(One)
    {
      ZeroMomentumPhase(trig, lat, r0, sites[i]);
    }
  }

  /** Zero momentum with full rotations on every axis projects onto the
      plain per-slice sum of the inner products, whatever the axis lengths. */
  lemma ZeroMomentumProjection(trig: Trig, lat: Lattice, args: ContractArgs, sites: seq<Site>, vals: seq<Complex>, t: int, k: nat)
    requires |vals| == |sites| && k < |args.moms|
    requires args.moms[k] == Momentum(0, 0, 0, EVENANDODD, EVENANDODD, EVENANDODD)
    requires forall l :: trig.cos(l, 0) == 1.0 && trig.sin(l, 0) == 0.0
    ensures Projected(trig, lat, args, sites, vals, t, k, |sites|) == PlainSum(sites, vals, t, |sites|)
  {
    AllZeroMomentumPhases(trig, lat, args.r0, sites, args.moms[k]);
    UnitPhaseProjection(trig, lat, args, sites, vals, t, k, |sites|);
  }

  /** A buffer whose thread rows hold the kernel's partial sums reduces, in
      thread order, to the sum of those partial sums. */
  lemma {:induction false} ThreadsSumOfPartials(q: array2<Complex>, sites: seq<Site>, thr: seq<nat>, vals: seq<Complex>,
                                                ft: seq<Complex>, n: nat, nt: nat, threads: nat, t: nat, k: nat)
    requires |thr| == |sites| && |vals| == |sites| && |ft| == n * |sites|
    requires t < nt && k < n && q.Length1 == n && threads * nt <= q.Length0
    requires forall th: nat :: th < threads ==>
      FlatIndex(nt, th, t) < q.Length0 && q[FlatIndex(nt, th, t), k] == Partial(sites, thr, vals, ft, n, th, t, k, |sites|)
    ensures ThreadsSum(q, nt, t, k, threads) == SumPartials(sites, thr, vals, ft, n, threads, t, k, |sites|)
  {
    if threads > 0 {
      MulMonotone(threads - 1, threads, nt);
      ThreadsSumOfPartials(q, sites, thr, vals, ft, n, nt, threads - 1, t, k);
    }
  }

  /** The whole call. Sites are the local sites in the order the site loop
      visits them, `vals[i]` is the inner product at site `i` and `thr[i]`
      the thread that handles it. When a parity tag is bad (and some site
      exists) the source terminates before touching `mesonQ`: then `ok` is
      false and `mesonQ` is unchanged. Otherwise every cell grows by its
      momentum projection, which does not depend on `thr` or `maxThreads`. */
  method QudaContract(trig: Trig, lat: Lattice, args: ContractArgs, sites: seq<Site>, vals: seq<Complex>,
                      thr: seq<nat>, maxThreads: nat, mesonQ: array2<Complex>)
    returns (ok: bool, flops: int)
    requires |thr| == |sites| && |vals| == |sites|
    requires forall i :: 0 <= i < |sites| ==> 0 <= sites[i].t < lat.nt && thr[i] < maxThreads
    requires mesonQ.Length0 == lat.nt && mesonQ.Length1 == |args.moms|
    modifies mesonQ
    ensures ok <==> (|sites| == 0 || AllValid(args.moms))
    ensures !ok ==> forall t, k :: 0 <= t < lat.nt && 0 <= k < |args.moms| ==> mesonQ[t, k] == old(mesonQ[t, k])
    ensures ok ==> flops == (18 + 8 + 8) * |sites| * |args.moms|
    ensures ok ==> forall t, k :: 0 <= t < lat.nt && 0 <= k < |args.moms| ==>
      mesonQ[t, k] == Add(old(mesonQ[t, k]), Projected(trig, lat, args, sites, vals, t, k, |sites|))
    ensures ok ==> forall t, k :: 0 <= t < lat.nt && 0 <= k < |args.moms| && !Occupied(sites, t) ==>
      mesonQ[t, k] == old(mesonQ[t, k])
  {
    var n := |args.moms|;
    var nt := lat.nt;
    flops := 0;
    var qThread := CreateMesonQThread(nt, maxThreads, n);
    var ft;
    ok, ft, flops := CreateFtfact(trig, lat, args.moms, args.r0, sites, flops);
    if !ok {
      return;
    }
    ghost var table := ft[..];
    var nonzero := new int[nt];
    var t := 0;
    while t < nt
      invariant 0 <= t <= nt
      invariant forall t' :: 0 <= t' < t ==> nonzero[t'] == 0
      modifies nonzero
    {
      nonzero[t] := 0;
      t := t + 1;
    }
    label beforeKernel:
    AccumulateSites(sites, thr, vals, ft, n, nt, maxThreads, qThread, nonzero);
    assert ft[..] == table;
    flops := flops + n * 8 * |sites|;
    assert forall t :: 0 <= t < nt ==> (nonzero[t] != 0 <==> Occupied(sites, t));
    forall t, k | 0 <= t < nt && 0 <= k < n && nonzero[t] != 0
      ensures ThreadsSum(qThread, nt, t, k, maxThreads) == Projected(trig, lat, args, sites, vals, t, k, |sites|)
    {
      MulMonotone(maxThreads, maxThreads, nt);
      forall th: nat | th < maxThreads
        ensures FlatIndex(nt, th, t) < qThread.Length0 &&
                qThread[FlatIndex(nt, th, t), k] == Partial(sites, thr, vals, table, n, th, t, k, |sites|)
      {
        FlatIndexInRange(nt, maxThreads, th, t);
        assert old@beforeKernel(qThread[FlatIndex(nt, th, t), k]) == Zero;
        AddZeroLeft(Partial(sites, thr, vals, table, n, th, t, k, |sites|));
      }
      ThreadsSumOfPartials(qThread, sites, thr, vals, table, n, nt, maxThreads, t, k);
      AssignmentIrrelevant(sites, thr, vals, table, n, maxThreads, t, k, |sites|);
      SliceSumIsProjected(trig, lat, args, sites, vals, t, k, |sites|);
    }
    var f := SumMesonQ(mesonQ, qThread, nonzero, maxThreads, nt, n, |sites|);
    flops := flops + f;
    forall t, k | 0 <= t < nt && 0 <= k < n && nonzero[t] == 0
      ensures Projected(trig, lat, args, sites, vals, t, k, |sites|) == Zero
    {
      if |sites| > 0 {
        assert sites[..|sites|] == sites;
        UnoccupiedSliceSum(sites, vals, table, n, t, k, |sites|);
        SliceSumIsProjected(trig, lat, args, sites, vals, t, k, |sites|);
      }
    }
  }
}
