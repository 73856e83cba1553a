/** The per-thread working buffer: its creation as a zeroed `max_threads*nt`
    by `num_corr_mom` table, and its reduction into the caller's correlator. */
module Accumulator {
  import opened ComplexArith
  import opened Indexing

  /** `create_meson_q_thread`: one row per (thread, time slice), row
      `(thread, t)` at index `thread*nt + t`, each of `n` cells, all zero. */
  method CreateMesonQThread(nt: nat, maxThreads: nat, n: nat) returns (q: array2<Complex>)
    ensures fresh(q)
    ensures q.Length0 == maxThreads * nt && q.Length1 == n
    ensures forall r, k :: 0 <= r < q.Length0 && 0 <= k < n ==> q[r, k] == Zero
  {
    q := new Complex[maxThreads * nt, n];
    var th := 0;
    while th < maxThreads
      invariant 0 <= th <= maxThreads
      invariant th * nt <= maxThreads * nt
      invariant forall r, k :: 0 <= r < th * nt && 0 <= k < n ==> q[r, k] == Zero
    {
      MulMonotone(th + 1, maxThreads, nt);
      assert (th + 1) * nt == th * nt + nt;
      var t := 0;
      while t < nt
        invariant 0 <= t <= nt
        invariant th * nt + t <= maxThreads * nt
        invariant forall r, k :: 0 <= r < th * nt + t && 0 <= k < n ==> q[r, k] == Zero
      {
        var row := FlatIndex(nt, th, t);
        var k := 0;
        while k < n
          invariant 0 <= k <= n
          invariant forall r, k' :: 0 <= r < row && 0 <= k' < n ==> q[r, k'] == Zero
          invariant forall k' :: 0 <= k' < k ==> q[row, k'] == Zero
        {
          q[row, k] := Zero;
          k := k + 1;
        }
        t := t + 1;
      }
      th := th + 1;
    }
  }

  /** The sum over threads `0 .. m-1`, in thread order, of cell `k` of each
      thread's row for time slice `t`. */
  ghost function ThreadsSum(q: array2<Complex>, nt: nat, t: nat, k: nat, m: nat): Complex
    reads q
    requires t < nt && k < q.Length1 && m * nt <= q.Length0
  {
    if m == 0 then Zero
    else
      FlatIndexInRange(nt, m, m - 1, t);
      MulMonotone(m - 1, m, nt);
      Add(ThreadsSum(q, nt, t, k, m - 1), q[FlatIndex(nt, m - 1, t), k])
  }

  /** The innermost loop of `sum_meson_q`: adds row `row` of the thread
      buffer into row `t` of the correlator, cell by cell, and zeroes each
      thread cell after it is added, so that it cannot be added twice. */
  method FoldRow(mesonQ: array2<Complex>, qThread: array2<Complex>, t: nat, row: nat)
    requires mesonQ != qThread
    requires t < mesonQ.Length0 && row < qThread.Length0 && mesonQ.Length1 == qThread.Length1
    modifies mesonQ, qThread
    ensures forall t', k :: 0 <= t' < mesonQ.Length0 && 0 <= k < mesonQ.Length1 ==>
      mesonQ[t', k] == if t' == t then Add(old(mesonQ[t', k]), old(qThread[row, k])) else old(mesonQ[t', k])
    ensures forall r, k :: 0 <= r < qThread.Length0 && 0 <= k < qThread.Length1 ==>
      qThread[r, k] == if r == row then Zero else old(qThread[r, k])
  {
    var k := 0;
    while k < mesonQ.Length1
      invariant 0 <= k <= mesonQ.Length1
      invariant forall t', k' :: 0 <= t' < mesonQ.Length0 && 0 <= k' < mesonQ.Length1 ==>
        mesonQ[t', k'] == if t' == t && k' < k then Add(old(mesonQ[t', k']), old(qThread[row, k'])) else old(mesonQ[t', k'])
      invariant forall r, k' :: 0 <= r < qThread.Length0 && 0 <= k' < qThread.Length1 ==>
        qThread[r, k'] == if r == row && k' < k then Zero else old(qThread[r, k'])
    {
      mesonQ[t, k] := Add(mesonQ[t, k], qThread[row, k]);
      qThread[row, k] := Zero;
      k := k + 1;
    }
  }

  /** One pass of the thread loop of `sum_meson_q`: folds the rows of thread
      `th` into the correlator, for the flagged time slices only. */
  method FoldThread(mesonQ: array2<Complex>, qThread: array2<Complex>, nonzero: array<int>,
                    th: nat, maxThreads: nat, nt: nat, n: nat)
    requires mesonQ != qThread
    requires mesonQ.Length0 == nt && mesonQ.Length1 == n && nonzero.Length == nt
    requires th < maxThreads && qThread.Length0 == maxThreads * nt && qThread.Length1 == n
    modifies mesonQ, qThread
    ensures forall t, k :: 0 <= t < nt && 0 <= k < n ==>
      FlatIndex(nt, th, t) < qThread.Length0 &&
      mesonQ[t, k] == if nonzero[t] != 0 then Add(old(mesonQ[t, k]), old(qThread[FlatIndex(nt, th, t), k])) else old(mesonQ[t, k])
    ensures forall th': nat, t': nat, k :: th' < maxThreads && t' < nt && 0 <= k < n ==>
      FlatIndex(nt, th', t') < qThread.Length0 &&
      qThread[FlatIndex(nt, th', t'), k] ==
        if th' == th && nonzero[t'] != 0 then Zero else old(qThread[FlatIndex(nt, th', t'), k])
  {
    AllFlatIndicesInRange(nt, maxThreads);
    var base := FlatIndex(nt, th, 0);
    MulMonotone(th + 1, maxThreads, nt);
    assert base + nt == (th + 1) * nt;
    var t := 0;
    while t < nt
      invariant 0 <= t <= nt
      invariant forall t', k :: 0 <= t' < nt && 0 <= k < n ==>
        mesonQ[t', k] == if t' < t && nonzero[t'] != 0 then Add(old(mesonQ[t', k]), old(qThread[base + t', k])) else old(mesonQ[t', k])
      invariant forall r, k :: 0 <= r < qThread.Length0 && 0 <= k < n ==>
        qThread[r, k] == if base <= r < base + t && nonzero[r - base] != 0 then Zero else old(qThread[r, k])
    {
      if nonzero[t] != 0 {
        FoldRow(mesonQ, qThread, t, base + t);
      }
      t := t + 1;
    }
    forall th': nat, t': nat, k | th' < maxThreads && t' < nt && 0 <= k < n
      ensures qThread[FlatIndex(nt, th', t'), k] ==
        if th' == th && nonzero[t'] != 0 then Zero else old(qThread[FlatIndex(nt, th', t'), k])
    {
      var r := FlatIndex(nt, th', t');
      if th' < th {
        FlatIndexInRange(nt, th, th', t');
        assert r < base;
      } else if th' > th {
        MulMonotone(th + 1, th', nt);
        assert r >= base + nt;
      } else {
        assert r == base + t';
      }
      assert qThread[r, k] == if base <= r < base + nt && nonzero[r - base] != 0 then Zero else old(qThread[r, k]);
    }
  }

  /** `sum_meson_q`: for every flagged time slice, adds every thread's row
      into `mesonQ[t]` in thread order and clears each thread cell once it is
      folded in; unflagged slices are left alone in both arrays. Returns the
      flop count `sites_on_node*8*num_corr_mom`. */
  method SumMesonQ(mesonQ: array2<Complex>, qThread: array2<Complex>, nonzero: array<int>,
                   maxThreads: nat, nt: nat, n: nat, sitesOnNode: nat) returns (flops: int)
    requires mesonQ != qThread
    requires mesonQ.Length0 == nt && mesonQ.Length1 == n
    requires qThread.Length0 == maxThreads * nt && qThread.Length1 == n
    requires nonzero.Length == nt
    modifies mesonQ, qThread
    ensures flops == sitesOnNode * 8 * n
    ensures forall t, k :: 0 <= t < nt && 0 <= k < n ==>
      mesonQ[t, k] == if nonzero[t] != 0 then Add(old(mesonQ[t, k]), old(ThreadsSum(qThread, nt, t, k, maxThreads)))
                      else old(mesonQ[t, k])
    ensures forall th: nat, t: nat, k :: th < maxThreads && t < nt && 0 <= k < n ==>
      FlatIndex(nt, th, t) < qThread.Length0 &&
      qThread[FlatIndex(nt, th, t), k] == if nonzero[t] != 0 then Zero else old(qThread[FlatIndex(nt, th, t), k])
  {
    AllFlatIndicesInRange(nt, maxThreads);
    var th := 0;
    while th < maxThreads
      invariant 0 <= th <= maxThreads
      invariant th * nt <= maxThreads * nt
      invariant forall t, k :: 0 <= t < nt && 0 <= k < n ==>
        mesonQ[t, k] == if nonzero[t] != 0 then Add(old(mesonQ[t, k]), old(ThreadsSum(qThread, nt, t, k, th)))
                        else old(mesonQ[t, k])
      invariant forall th': nat, t: nat, k :: th' < maxThreads && t < nt && 0 <= k < n ==>
        qThread[FlatIndex(nt, th', t), k] == if th' < th && nonzero[t] != 0 then Zero else old(qThread[FlatIndex(nt, th', t), k])
    {
      MulMonotone(th + 1, maxThreads, nt);
      FoldThread(mesonQ, qThread, nonzero, th, maxThreads, nt, n);
      th := th + 1;
    }
    flops := sitesOnNode * 8 * n;
  }
}
