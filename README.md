# Meson contraction on the CPU (milc_qcd `generic_ks/contraction_cpu.c`)

This project models the CPU stand-in for the GPU staggered-fermion meson
contraction, `qudaContract`, and proves what it computes. The call does five things:

1. It builds a per-thread working buffer, `meson_q_thread`. The buffer has one row per
   (thread, time slice) at index `thread*nt + t`, and each row holds `num_corr_mom`
   complex cells set to zero.
2. It builds the Fourier phase table `ftfact`. Entry `k + N*i` is the phase of site `i`
   for momentum `k`. That phase is `ff` folded over the x, y and z axes, starting from
   (1,0).
   - `ff` multiplies by the cosine (EVEN), by `i` times the sine (ODD) or by
     `cos + i sin` (EVENANDODD).
   - Any other parity tag is fatal.
3. It runs the site loop. Each site flags its time slice in `nonzero` and adds its
   colour inner product times each phase into the row of its thread.
4. It runs the reduction `sum_meson_q`. For every flagged time slice, this adds each
   thread's row into the caller's `meson_q[t]` in thread order, then clears the thread
   cell.
5. It accounts for flops (`18 + 8 + 8` per site and momentum).

Modelling choices:

- Complex numbers are pairs of exact reals (module `ComplexArith`).
- Cosine and sine are left abstract as a `Trig` record. `cos(L, m)` stands for
  `cos((2*PI/L)*m)`.
- The OpenMP schedule is a sequence `thr`: site `i` runs on thread `thr[i] <
  max_threads`.
- The per-site inner products are a given sequence `vals`.

The buffers keep their imperative form:

- `meson_q_thread` is an `array2` with `max_threads*nt` rows.
- `meson_q` is an `array2` of size `nt × N`.
- `ftfact` is an `array` of length `N*sites`.
- `nonzero` is an `array<int>`.

Each loop is proved against a reference definition:

- The phase table `Phase.PhaseTable`.
- The per-thread partial sums `Kernel.Partial`.
- The single-accumulator slice sums `Kernel.SliceSum`.
- The momentum projection `Contraction.Projected`.

The headline result is `Contraction.QudaContract`. After the call, every
`meson_q[t][k]` has grown by the momentum projection over the sites on slice `t`. That
projection does not depend on how many threads there are or how sites were assigned to
them (`Kernel.AssignmentIrrelevant`, `Kernel.AssignmentsAgree`).

Modules and files:

- `complex.dfy`: `ComplexArith`, the complex numbers.
- `indexing.dfy`: `Indexing`, the flat index `hi*w + lo` used for both layouts.
- `phase.dfy`: `Phase`, covering `ff` and `create_ftfact`.
- `accumulator.dfy`: `Accumulator`, covering `create_meson_q_thread` and
  `sum_meson_q`.
- `kernel.dfy`: `Kernel`, the site loop.
- `contraction.dfy`: `Contraction`, `qudaContract` as a whole.

## Model

| member | source | states |
|---|---|---|
| Phase.Ff | generic_ks/contraction_cpu.c:79-100 | EVEN gives `z*(c,0)`, ODD gives `z*(0,s)` and EVENANDODD gives `z*(c,s)` (complex products). Any other tag yields `BadParity(tag)`, which stands for the diagnostic plus `terminate(1)`. |
| Phase.SitePhase | generic_ks/contraction_cpu.c:137-144 | Folding `ff` over x, y, z from (1,0) succeeds exactly when all three tags are valid. Otherwise it fails with the first bad tag in the order x, y, z. |
| Phase.SitePhaseIsProduct | generic_ks/contraction_cpu.c:120-122 | For valid tags, the site phase is the product of the three per-axis factors (cos, i·sin or exp). Each factor is taken at the angle `(2*PI/L)*(coord - r0)*p` of its axis. |
| Phase.PhaseTable | generic_ks/contraction_cpu.c:113 | The reference table has `num_corr_mom * sites_on_node` entries. |
| Phase.PhaseTableAt | generic_ks/contraction_cpu.c:146 | Entry `k + N*i` of the reference table lies in range and is the phase of site `i` for momentum `k`. |
| Phase.TableFromEntries | generic_ks/contraction_cpu.c:126-147 | A table of size `N*sites` whose every entry `k + N*i` holds that site's phase is the reference table. So a loop that writes every (site, momentum) pair at `k + N*i` builds exactly that table. That no two pairs share a slot is `Indexing.FlatIndexInjective`. |
| Phase.ComposePhase | generic_ks/contraction_cpu.c:137-144 | This is the imperative, step-by-step form of `SitePhase`. The three `ff` steps, which stop at the first bad tag, compute exactly `SitePhase`. Its meaning comes from `SitePhase`'s ensures and from `SitePhaseIsProduct`. |
| Phase.FillRow | generic_ks/contraction_cpu.c:127-147 | The momentum loop for one site succeeds iff every momentum's tags are valid. On success, entry `base + k` holds the phase for momentum `k`. Entries outside the row are unchanged. |
| Phase.CreateFtfact | generic_ks/contraction_cpu.c:105-152 | The table is fresh. The call succeeds iff there are no sites or every momentum is valid. On success, the table equals `PhaseTable` and `flops` grows by `sites*18*N`. |
| Phase.ZeroMomentumPhase | generic_ks/contraction_cpu.c:137-144 | When `cos 0 = 1` and `sin 0 = 0`, momentum (0,0,0) with EVENANDODD on every axis has phase 1 at every site. |
| Phase.QuarterWavelengthPhase | generic_ks/contraction_cpu.c:109-144 | Assume `cos 0 = 1` and `sin 0 = 0` on every axis length. Then momentum (1,0,0) with EVEN on x and EVENANDODD on y and z, at site (L/4,0,0) with origin 0, has phase `(cos((2*PI/L)*(L/4)), 0)`. |
| Accumulator.CreateMesonQThread | generic_ks/contraction_cpu.c:21-42 | The buffer is fresh, with `max_threads*nt` rows of `num_corr_mom` cells, and every cell is (0,0). |
| Accumulator.FoldRow | generic_ks/contraction_cpu.c:63-69 | Row `t` of `meson_q` grows cell by cell by the old thread row. The thread row becomes zero. Nothing else changes. |
| Accumulator.FoldThread | generic_ks/contraction_cpu.c:62-70 | For each flagged slice `t`, `meson_q[t]` grows by thread `th`'s row `th*nt + t`, and that row is cleared. Unflagged slices and other threads' rows are unchanged. |
| Accumulator.SumMesonQ | generic_ks/contraction_cpu.c:57-75 | For a flagged `t`, `meson_q[t][k]` grows by the thread-ordered sum of every thread's cell, and those cells end at zero. Unflagged slices are unchanged in both arrays. The return value is `sites_on_node*8*N`. |
| Kernel.ScatterSite | generic_ks/contraction_cpu.c:241-251 | Cell `k` of the one row `row` grows by `meson * ftfact[base+k]`, using complex multiplication written out componentwise. No other cell changes. |
| Kernel.AccumulateSites | generic_ks/contraction_cpu.c:220-252 | `nonzero[t]` becomes 1 exactly for the time slices some site lies on, and the other flags keep their value. Each cell of row `th*nt + t` grows by exactly thread `th`'s partial sum of `meson*phase` over its sites on slice `t`. |
| Kernel.OccupiedExtend | generic_ks/contraction_cpu.c:236 | Flagging the current site's slice turns "occupied by the first i sites" into "occupied by the first i+1 sites". |
| Kernel.SumPartialsStep | generic_ks/contraction_cpu.c:237-251 | Adding one site adds its term exactly once to the thread-ordered total, namely to the row of its own thread. |
| Kernel.AssignmentIrrelevant | generic_ks/contraction_cpu.c:222-258 | When every site's thread is below `max_threads`, the thread-ordered sum of the per-thread partial sums equals the single-accumulator slice sum, whatever the assignment. |
| Kernel.AssignmentsAgree | generic_ks/contraction_cpu.c:192-197 | Two runs with any thread counts and any site-to-thread assignments reduce to the same totals. |
| Kernel.UnoccupiedSliceSum | generic_ks/contraction_cpu.c:62 | A time slice no site lies on has slice sum zero, so skipping unflagged slices loses nothing. |
| Indexing.FlatIndexInRange | generic_ks/contraction_cpu.c:25-29 | Row `thread*nt + t` of a buffer with `max_threads*nt` rows is in range. |
| Indexing.FlatIndexInjective | generic_ks/contraction_cpu.c:237 | Distinct (thread, slice) pairs, or (site, momentum) pairs, never share a flat index. |
| Indexing.FlatIndexOnto | generic_ks/contraction_cpu.c:113 | Every slot `j` of an `h*w` buffer is the flat index of the cell `(j / w, j % w)`. |
| Indexing.FlatIndexSplit | generic_ks/contraction_cpu.c:146 | Splitting `k + N*i` by `N` recovers `i` and `k`. |
| Contraction.SliceSumIsProjected | generic_ks/contraction_cpu.c:241-251 | Summing over the phase table as the kernel reads it gives the momentum projection. |
| Contraction.UnitPhaseProjection | generic_ks/contraction_cpu.c:216-218 | When every site's phase for momentum `k` is 1, the projection is the plain per-slice sum of the inner products. |
| Contraction.AllZeroMomentumPhases | generic_ks/contraction_cpu.c:137-146 | Assume `cos 0 = 1` and `sin 0 = 0` on every axis length. Then, for zero momentum with EVENANDODD on every axis, every local site's phase is 1. |
| Contraction.ZeroMomentumProjection | generic_ks/contraction_cpu.c:216-218 | Assume `cos 0 = 1` and `sin 0 = 0` on every axis length. Then zero momentum with EVENANDODD on every axis projects onto the plain per-slice sum of the inner products. |
| Contraction.ThreadsSumOfPartials | generic_ks/contraction_cpu.c:61-71 | A buffer whose rows hold the kernel's partial sums reduces, in thread order, to the sum of those partial sums. |
| Contraction.QudaContract | generic_ks/contraction_cpu.c:174-266 | Success holds iff there are no sites or every parity tag is valid. On failure, `meson_q` is unchanged. On success, `flops` equals `(18+8+8)*sites*N` and every `meson_q[t][k]` grows by the momentum projection over the sites on slice `t`. Any slice without sites stays unchanged. |

## Left out

- Trigonometry and floating point are left out. `cos`/`sin` and `2.0*PI/n` are an abstract `Trig` of exact reals, and all arithmetic is exact. So the model says nothing about rounding or about floating-point equality across thread counts.
- `su3_dot`, the `su3_vector` layout and the `FORALLSITES_OMP` enumeration are external. The inner products are a given sequence `vals`, and the sites are a sequence in loop order.
- OpenMP concurrency is not modelled. The schedule is the sequence `thr` run sequentially, and the benign concurrent write of 1 to `nonzero[st]` is not modelled.
- `dclock` timing and `cont_args->dtime` are a clock call, so they are left out. `flops` is returned instead of being written to `cont_args->flops`.
- The `printf` diagnostics are not modelled. `terminate(1)` on a bad parity is modelled as `ok == false`, with no later effect.
- Allocation failures are not modelled, because `malloc` is taken never to fail. This applies to the `terminate` paths at lines 113-118 and 208-212. That includes the zero-size case: `malloc(0)` may legally return NULL. Then, when `num_corr_mom*sites_on_node == 0`, line 114 terminates, and when `nt == 0`, line 209 does. The model instead proves that such calls succeed as no-ops, for example with no sites `QudaContract` gives `ok` and `flops == 0`, which holds only where `malloc(0)` returns a non-NULL pointer. A failed row allocation in `create_meson_q_thread` (lines 30-31) only prints and then writes through a null row. The code therefore does not treat allocation failure as uniformly fatal.
- `destroy_meson_q_thread` and `destroy_ftfact` are not modelled, because deallocation has no counterpart in Dafny. The code never frees the outer row-pointer array (lines 46-54) or `nonzero` (line 208), so not all working storage is released before return.
- The precision arguments `milc_precision` and `quda_precision` are unused by the code, so they are left out.
- The pointer-of-rows layout of `meson_q_thread` and `meson_q` is flattened to `array2`. `meson_q` is taken to be exactly `nt × N`.
- `Real` flop counts are modelled as exact integers.
- C `int` overflow is not modelled: Dafny's `int` is unbounded, so the index products are taken never to overflow. These are `max_threads*nt` (line 25), `mythread*nt+t` (lines 29 and 237), `num_corr_mom*sites_on_node` (line 113) and `k+num_corr_mom*i` (line 146).
- The `nt` parameter of `create_ftfact` is unused there, so it is left out.
