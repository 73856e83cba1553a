/** The Fourier phase factors: the per-axis composition rule `ff` and the
    phase table `create_ftfact` builds, one entry per (site, momentum). */
module Phase {
  import opened ComplexArith
  import opened Indexing

  /** Parity tags, with the numeric values of the source's `char` constants. */
  const EVEN: int := 0x02
  const ODD: int := 0x01
  const EVENANDODD: int := 0x03

  predicate ValidParity(p: int) {
    p == EVEN || p == ODD || p == EVENANDODD
  }

  /** Outcome of a phase computation: a value, or the unrecognised parity
      tag on which the source prints a diagnostic and terminates. */
  datatype Result<T> = Ok(value: T) | BadParity(tag: int)

  /** The trigonometry, left abstract: `cos(L, m)` and `sin(L, m)` stand for
      the cosine and sine of the angle `(2*PI/L)*m`. */
  datatype Trig = Trig(cos: (int, int) -> real, sin: (int, int) -> real)

  datatype Lattice = Lattice(nx: int, ny: int, nz: int, nt: nat)

  datatype Vec3 = Vec3(x: int, y: int, z: int)

  /** A lattice site, as the coordinates the geometry exposes. */
  datatype Site = Site(x: int, y: int, z: int, t: int)

  /** One requested sink momentum: integer components and one parity tag
      per spatial axis. */
  datatype Momentum = Momentum(px: int, py: int, pz: int, ex: int, ey: int, ez: int)

  predicate ValidMomentum(m: Momentum) {
    ValidParity(m.ex) && ValidParity(m.ey) && ValidParity(m.ez)
  }

  predicate AllValid(moms: seq<Momentum>) {
    forall k :: 0 <= k < |moms| ==> ValidMomentum(moms[k])
  }

  /** One axis step of the phase composition, with `c` and `s` the cosine and
      sine of that axis's angle. Each recognised parity multiplies the running
      value by a fixed complex factor: `c` for EVEN, `i*s` for ODD and the
      full rotation `c + i*s` for EVENANDODD. */
  function Ff(c: real, s: real, parity: int, z: Complex): (r: Result<Complex>)
    ensures parity == EVEN ==> r == Ok(Mul(z, Complex(c, 0.0)))
    ensures parity == ODD ==> r == Ok(Mul(z, Complex(0.0, s)))
    ensures parity == EVENANDODD ==> r == Ok(Mul(z, Complex(c, s)))
    ensures !ValidParity(parity) ==> r == BadParity(parity)
  {
    if parity == EVEN then
      assert Mul(z, Complex(c, 0.0)) == Complex(z.re * c, z.im * c) by { MulRealFactor(z, c); }
      Ok(Complex(z.re * c, z.im * c))
    else if parity == ODD then
      assert Mul(z, Complex(0.0, s)) == Complex(-z.im * s, z.re * s) by { MulImagFactor(z, s); }
      Ok(Complex(-z.im * s, z.re * s))
    else if parity == EVENANDODD then
      assert Mul(z, Complex(c, s)) == Complex(z.re * c - z.im * s, z.im * c + z.re * s);
      Ok(Complex(z.re * c - z.im * s, z.im * c + z.re * s))
    else
      BadParity(parity)
  }

  /** The complex factor one axis step multiplies by. */
  function AxisFactor(c: real, s: real, parity: int): Complex
    requires ValidParity(parity)
  {
    if parity == EVEN then Complex(c, 0.0)
    else if parity == ODD then Complex(0.0, s)
    else Complex(c, s)
  }

  /** Angle numerator `(coord - origin)*p` on an axis. */
  function AxisAngle(coord: int, origin: int, p: int): int {
    (coord - origin) * p
  }

  /** The phase of site `s` for momentum `m`: `ff` folded over x, then y,
      then z, starting from (1,0). */
  function SitePhase(trig: Trig, lat: Lattice, r0: Vec3, s: Site, m: Momentum): (r: Result<Complex>)
    ensures r.Ok? <==> ValidMomentum(m)
    ensures !ValidParity(m.ex) ==> r == BadParity(m.ex)
    ensures ValidParity(m.ex) && !ValidParity(m.ey) ==> r == BadParity(m.ey)
    ensures ValidParity(m.ex) && ValidParity(m.ey) && !ValidParity(m.ez) ==> r == BadParity(m.ez)
  {
    var ax := AxisAngle(s.x, r0.x, m.px);
    var ay := AxisAngle(s.y, r0.y, m.py);
    var az := AxisAngle(s.z, r0.z, m.pz);
    match Ff(trig.cos(lat.nx, ax), trig.sin(lat.nx, ax), m.ex, One)
    case BadParity(p) => BadParity(p)
    case Ok(zx) =>
      match Ff(trig.cos(lat.ny, ay), trig.sin(lat.ny, ay), m.ey, zx)
      case BadParity(p) => BadParity(p)
      case Ok(zy) => Ff(trig.cos(lat.nz, az), trig.sin(lat.nz, az), m.ez, zy)
  }

  /** For valid tags the phase is the product, in the order x, y, z, of the
      three per-axis factors, each evaluated at that axis's angle
      `(2*PI/L)*(coord - origin)*p`. */
  lemma SitePhaseIsProduct(trig: Trig, lat: Lattice, r0: Vec3, s: Site, m: Momentum)
    requires ValidMomentum(m)
    ensures SitePhase(trig, lat, r0, s, m) == Ok(Mul(Mul(
      AxisFactor(trig.cos(lat.nx, AxisAngle(s.x, r0.x, m.px)), trig.sin(lat.nx, AxisAngle(s.x, r0.x, m.px)), m.ex),
      AxisFactor(trig.cos(lat.ny, AxisAngle(s.y, r0.y, m.py)), trig.sin(lat.ny, AxisAngle(s.y, r0.y, m.py)), m.ey)),
      AxisFactor(trig.cos(lat.nz, AxisAngle(s.z, r0.z, m.pz)), trig.sin(lat.nz, AxisAngle(s.z, r0.z, m.pz)), m.ez)))
  {
    var fx := AxisFactor(trig.cos(lat.nx, AxisAngle(s.x, r0.x, m.px)), trig.sin(lat.nx, AxisAngle(s.x, r0.x, m.px)), m.ex);
    MulOneLeft(fx);
  }

  /** The phase table entry at flat index `j`, that is the phase of site
      `j / N` for momentum `j % N`. */
  function PhaseAt(trig: Trig, lat: Lattice, r0: Vec3, sites: seq<Site>, moms: seq<Momentum>, j: nat): Complex
    requires AllValid(moms)
    requires j < |moms| * |sites|
  {
    FlatIndexOnto(|moms|, |sites|, j);
    SitePhase(trig, lat, r0, sites[j / |moms|], moms[j % |moms|]).value
  }

  /** The whole table `create_ftfact` is meant to produce. */
  function PhaseTable(trig: Trig, lat: Lattice, r0: Vec3, sites: seq<Site>, moms: seq<Momentum>): (tbl: seq<Complex>)
    requires |sites| == 0 || AllValid(moms)
    ensures |tbl| == |moms| * |sites|
  {
    if |sites| == 0 then []
    else seq(|moms| * |sites|, j requires 0 <= j < |moms| * |sites| => PhaseAt(trig, lat, r0, sites, moms, j))
  }

  /** Entry `k + N*i` of the table is the phase of site `i` for momentum `k`. */
  lemma PhaseTableAt(trig: Trig, lat: Lattice, r0: Vec3, sites: seq<Site>, moms: seq<Momentum>, i: nat, k: nat)
    requires AllValid(moms)
    requires i < |sites| && k < |moms|
    ensures FlatIndex(|moms|, i, k) < |moms| * |sites|
    ensures SitePhase(trig, lat, r0, sites[i], moms[k]) == Ok(PhaseTable(trig, lat, r0, sites, moms)[FlatIndex(|moms|, i, k)])
  {
    FlatIndexInRange(|moms|, |sites|, i, k);
    FlatIndexSplit(|moms|, i, k);
  }

  /** The body of the momentum loop of `create_ftfact`: starting from (1,0),
      applies `ff` for the x, then y, then z axis; a bad tag stops at once. */
  method ComposePhase(trig: Trig, lat: Lattice, r0: Vec3, s: Site, m: Momentum) returns (r: Result<Complex>)
    ensures r == SitePhase(trig, lat, r0, s, m)
  {
    var tmp := One;
    var ax := AxisAngle(s.x, r0.x, m.px);
    var ay := AxisAngle(s.y, r0.y, m.py);
    var az := AxisAngle(s.z, r0.z, m.pz);
    r := Ff(trig.cos(lat.nx, ax), trig.sin(lat.nx, ax), m.ex, tmp);
    if r.BadParity? { return; }
    tmp := r.value;
    r := Ff(trig.cos(lat.ny, ay), trig.sin(lat.ny, ay), m.ey, tmp);
    if r.BadParity? { return; }
    tmp := r.value;
    r := Ff(trig.cos(lat.nz, az), trig.sin(lat.nz, az), m.ez, tmp);
  }

  /** The momentum loop of `create_ftfact` for one site: writes the phase of
      every momentum into the `|moms|` entries starting at `base`, and fails
      as soon as a momentum carries a bad tag. */
  method FillRow(trig: Trig, lat: Lattice, r0: Vec3, s: Site, moms: seq<Momentum>, ft: array<Complex>, base: nat)
    returns (ok: bool)
    requires base + |moms| <= ft.Length
    modifies ft
    ensures ok <==> AllValid(moms)
    ensures ok ==> forall k :: 0 <= k < |moms| ==> SitePhase(trig, lat, r0, s, moms[k]) == Ok(ft[base + k])
    ensures forall j :: 0 <= j < ft.Length && (j < base || base + |moms| <= j) ==> ft[j] == old(ft[j])
  {
    var k := 0;
    while k < |moms|
      invariant 0 <= k <= |moms|
      invariant forall k' :: 0 <= k' < k ==> ValidMomentum(moms[k'])
      invariant forall k' :: 0 <= k' < k ==> SitePhase(trig, lat, r0, s, moms[k']) == Ok(ft[base + k'])
      invariant forall j :: 0 <= j < ft.Length && (j < base || base + |moms| <= j) ==> ft[j] == old(ft[j])
    {
      var phase := ComposePhase(trig, lat, r0, s, moms[k]);
      if phase.BadParity? { ok := false; return; }
      ft[base + k] := phase.value;
      k := k + 1;
    }
    ok := true;
  }

  /** `create_ftfact`: fills the phase table site by site and momentum by
      momentum, and adds its flop count. When `ff` meets a bad tag the
      source terminates; here the method then returns `ok == false`. With no
      local site `ff` is never called and no tag is checked. */
  method CreateFtfact(trig: Trig, lat: Lattice, moms: seq<Momentum>, r0: Vec3, sites: seq<Site>, flops: int)
    returns (ok: bool, ft: array<Complex>, flops': int)
    ensures fresh(ft)
    ensures ok <==> (|sites| == 0 || AllValid(moms))
    ensures ok ==> ft[..] == PhaseTable(trig, lat, r0, sites, moms)
    ensures ok ==> flops' == flops + |sites| * 18 * |moms|
  {
    var n := |moms|;
    ft := new Complex[n * |sites|];
    flops' := flops;
    AllFlatIndicesInRange(n, |sites|);
    var i := 0;
    while i < |sites|
      invariant 0 <= i <= |sites|
      invariant i > 0 ==> AllValid(moms)
      invariant forall i': nat, k': nat :: i' < i && k' < n ==>
        SitePhase(trig, lat, r0, sites[i'], moms[k']) == Ok(ft[FlatIndex(n, i', k')])
    {
      var base := FlatIndex(n, i, 0);
      MulMonotone(i + 1, |sites|, n);
      assert base + n == (i + 1) * n;
      label beforeRow:
      var rowOk := FillRow(trig, lat, r0, sites[i], moms, ft, base);
      if !rowOk { ok := false; return; }
      forall i': nat, k': nat | i' < i + 1 && k' < n
        ensures SitePhase(trig, lat, r0, sites[i'], moms[k']) == Ok(ft[FlatIndex(n, i', k')])
      {
        if i' < i {
          MulMonotone(i' + 1, i, n);
          assert FlatIndex(n, i', k') < (i' + 1) * n <= base;
          assert ft[FlatIndex(n, i', k')] == old@beforeRow(ft[FlatIndex(n, i', k')]);
        } else {
          assert FlatIndex(n, i', k') == base + k';
        }
      }
      i := i + 1;
    }
    flops' := flops + |sites| * 18 * n;
    ok := true;
    TableFromEntries(trig, lat, r0, sites, moms, ft[..]);
  }

  /** A table of the right size whose every entry `k + N*i` is the phase of
      site `i` for momentum `k` is the phase table. */
  lemma TableFromEntries(trig: Trig, lat: Lattice, r0: Vec3, sites: seq<Site>, moms: seq<Momentum>, tbl: seq<Complex>)
    requires |sites| == 0 || AllValid(moms)
    requires |tbl| == |moms| * |sites|
    requires forall i: nat, k: nat :: i < |sites| && k < |moms| ==>
      FlatIndex(|moms|, i, k) < |tbl| && SitePhase(trig, lat, r0, sites[i], moms[k]) == Ok(tbl[FlatIndex(|moms|, i, k)])
    ensures tbl == PhaseTable(trig, lat, r0, sites, moms)
  {
    var n := |moms|;
    if |sites| > 0 {
      forall j | 0 <= j < |tbl|
        ensures tbl[j] == PhaseTable(trig, lat, r0, sites, moms)[j]
      {
        FlatIndexOnto(n, |sites|, j);
        var i, k := j / n, j % n;
        assert SitePhase(trig, lat, r0, sites[i], moms[k]) == Ok(tbl[FlatIndex(n, i, k)]);
        assert PhaseTable(trig, lat, r0, sites, moms)[j] == PhaseAt(trig, lat, r0, sites, moms, j);
      }
    }
  }

  /** Zero momentum with full rotations on every axis gives the phase 1 at
      every site, whatever the axis lengths, whenever cos 0 = 1 and sin 0 = 0. */
  lemma ZeroMomentumPhase(trig: Trig, lat: Lattice, r0: Vec3, s: Site)
    requires forall l :: trig.cos(l, 0) == 1.0 && trig.sin(l, 0) == 0.0
    ensures SitePhase(trig, lat, r0, s, Momentum(0, 0, 0, EVENANDODD, EVENANDODD, EVENANDODD)) == Ok(One)
  {
    assert AxisAngle(s.x, r0.x, 0) == 0;
    assert AxisAngle(s.y, r0.y, 0) == 0;
    assert AxisAngle(s.z, r0.z, 0) == 0;
  }

  /** Momentum (1,0,0), EVEN on x and EVENANDODD on y and z, origin 0: at
      the site a quarter of the way along x on the x axis the phase is the
      bare cosine of the angle `(2*PI/L)*(L/4)`, with a zero imaginary part. */
  lemma QuarterWavelengthPhase(trig: Trig, l: int, ny: int, nz: int, nt: nat, t: int)
    requires forall n :: trig.cos(n, 0) == 1.0 && trig.sin(n, 0) == 0.0
    ensures SitePhase(trig, Lattice(l, ny, nz, nt), Vec3(0, 0, 0), Site(l / 4, 0, 0, t),
                      Momentum(1, 0, 0, EVEN, EVENANDODD, EVENANDODD))
            == Ok(Complex(trig.cos(l, l / 4), 0.0))
  {
    assert AxisAngle(l / 4, 0, 1) == l / 4;
    assert AxisAngle(0, 0, 0) == 0;
  }
}
