/**
 * The particles Model.generate_particles seeds: n evenly spaced particles in every element,
 * the element's mass and volume shared equally among them. Seeding is the value the method
 * is proved to append; the lemmas say where the seeds lie and what they add up to.
 */
module Seeding {
  import opened Wrappers
  import opened Materials
  import opened Particles
  import opened Nodes
  import opened Usl

  /** What the seeding reads from one element: x_ini(), length(), mass, volume, material. */
  datatype Cell = Cell(xIni: real, length: real, mass: real, volume: real, material: Material)

  /** The i-th (from 0) of the n particles of a cell: at rest, at (i + 1) gaps of length / (n + 1) from the cell's start. */
  function Seed(c: Cell, n: nat, i: nat): (r: ParticleState)
    requires i < n
    ensures r.velocity == 0.0 && r.material == c.material && r.currentVolume == r.initialVolume
  {
    Fresh(c.xIni + (i + 1) as real * (c.length / (n + 1) as real), 0.0,
          c.mass / n as real, c.volume / n as real, c.material)
  }

  function SeedCell(c: Cell, n: nat): (r: seq<ParticleState>)
    ensures |r| == n && forall i | 0 <= i < n :: r[i].material == c.material && r[i].velocity == 0.0
  {
    seq(n, i requires 0 <= i < n => Seed(c, n, i))
  }

  /** The element loop: the seeds of each cell in turn, in mesh order. */
  function Seeds(cs: seq<Cell>, n: nat): (r: seq<ParticleState>)
    ensures |r| == |cs| * n
    decreases |cs|
  {
    if cs == [] then []
    else
      assert |cs| * n == (|cs| - 1) * n + n;
      Seeds(cs[..|cs| - 1], n) + SeedCell(cs[|cs| - 1], n)
  }

  /** The element loop one element further on. */
  lemma SeedsNext(cs: seq<Cell>, k: nat, n: nat)
    requires k < |cs|
    ensures Seeds(cs[..k + 1], n) == Seeds(cs[..k], n) + SeedCell(cs[k], n)
  {
    assert cs[..k + 1][..k] == cs[..k];
  }

  function CellsMass(cs: seq<Cell>): (r: real)
    decreases |cs|
  {
    if cs == [] then 0.0 else CellsMass(cs[..|cs| - 1]) + cs[|cs| - 1].mass
  }

  function CellsVolume(cs: seq<Cell>): (r: real)
    decreases |cs|
  {
    if cs == [] then 0.0 else CellsVolume(cs[..|cs| - 1]) + cs[|cs| - 1].volume
  }

  /** The cells of a mesh generated from 0 with element length h: cell k spans [k * h, (k + 1) * h]. */
  ghost predicate OnGrid(cs: seq<Cell>, h: real) {
    h > 0.0 && forall k | 0 <= k < |cs| :: cs[k].xIni == k as real * h && cs[k].length == h
  }

  /**
   * The seeds of a cell of positive length are evenly spaced, one gap of length / (n + 1)
   * apart, with one such gap between each end of the cell and the nearest seed; so every
   * seed lies strictly inside the cell.
   */
  lemma SeedSpacing(c: Cell, n: nat, i: nat)
    requires c.length > 0.0 && i < n
    ensures var d := c.length / (n + 1) as real;
            d > 0.0 &&
            (i == 0 ==> Seed(c, n, i).x - c.xIni == d) &&
            (i + 1 < n ==> Seed(c, n, i + 1).x - Seed(c, n, i).x == d) &&
            (i + 1 == n ==> c.xIni + c.length - Seed(c, n, i).x == d)
    ensures c.xIni < Seed(c, n, i).x < c.xIni + c.length
  {
    var d := c.length / (n + 1) as real;
    assert d * (n + 1) as real == c.length;
    assert (i + 2) as real * d == (i + 1) as real * d + d;
    ScaleStrict(0.0, (i + 1) as real, d);
    ScaleStrict((i + 1) as real, (n + 1) as real, d);
    if i + 1 == n {
      assert (n + 1) as real * d == (i + 1) as real * d + d;
    }
  }

  /** Every seed starts at rest, undeformed and unstressed, with 1/n of its cell's mass and volume. */
  lemma SeedAtRest(c: Cell, n: nat, i: nat)
    requires i < n
    ensures var p := Seed(c, n, i);
            p.velocity == 0.0 && p.Momentum() == 0.0 && p.stress == 0.0 &&
            p.deformationGradient == 1.0 && p.currentVolume == p.initialVolume &&
            p.mass * n as real == c.mass && p.initialVolume * n as real == c.volume &&
            p.material == c.material
  {
  }

  lemma {:induction false} TotalsAppend(ps: seq<ParticleState>, qs: seq<ParticleState>)
    ensures TotalParticleMass(ps + qs) == TotalParticleMass(ps) + TotalParticleMass(qs)
    ensures TotalParticleVolume(ps + qs) == TotalParticleVolume(ps) + TotalParticleVolume(qs)
    decreases |qs|
  {
    if qs == [] {
      assert ps + qs == ps;
    } else {
      var init := qs[..|qs| - 1];
      assert (ps + qs)[..|ps + qs| - 1] == ps + init;
      TotalsAppend(ps, init);
    }
  }

  /** Particles that all have mass m and initial volume v weigh |ps| * m and fill |ps| * v. */
  lemma {:induction false} UniformTotals(ps: seq<ParticleState>, m: real, v: real)
    requires forall i | 0 <= i < |ps| :: ps[i].mass == m && ps[i].initialVolume == v
    ensures TotalParticleMass(ps) == |ps| as real * m
    ensures TotalParticleVolume(ps) == |ps| as real * v
    decreases |ps|
  {
    if ps != [] {
      UniformTotals(ps[..|ps| - 1], m, v);
      assert |ps| as real * m == (|ps| - 1) as real * m + m;
      assert |ps| as real * v == (|ps| - 1) as real * v + v;
    }
  }

  /** The seeds of a cell carry exactly the cell's mass and volume. */
  lemma SeedCellTotals(c: Cell, n: nat)
    requires n >= 1
    ensures TotalParticleMass(SeedCell(c, n)) == c.mass
    ensures TotalParticleVolume(SeedCell(c, n)) == c.volume
  {
    UniformTotals(SeedCell(c, n), c.mass / n as real, c.volume / n as real);
  }

  /** The seeds of a mesh carry exactly the mesh's mass and volume; with n = 0 there are none. */
  lemma {:induction false} SeedsTotals(cs: seq<Cell>, n: nat)
    ensures n == 0 ==> Seeds(cs, n) == []
    ensures n >= 1 ==> TotalParticleMass(Seeds(cs, n)) == CellsMass(cs)
    ensures n >= 1 ==> TotalParticleVolume(Seeds(cs, n)) == CellsVolume(cs)
    decreases |cs|
  {
    if cs != [] {
      var init := cs[..|cs| - 1];
      SeedsTotals(init, n);
      if n >= 1 {
        TotalsAppend(Seeds(init, n), SeedCell(cs[|cs| - 1], n));
        SeedCellTotals(cs[|cs| - 1], n);
      }
    }
  }

  /** Cells that all have mass m weigh |cs| * m together. */
  lemma {:induction false} UniformCellsMass(cs: seq<Cell>, m: real)
    requires forall k | 0 <= k < |cs| :: cs[k].mass == m
    ensures CellsMass(cs) == |cs| as real * m
    decreases |cs|
  {
    if cs != [] {
      UniformCellsMass(cs[..|cs| - 1], m);
      assert |cs| as real * m == (|cs| - 1) as real * m + m;
    }
  }

  /** The seeds of cells that all have mass m weigh |cs| * m together. */
  lemma UniformSeedsMass(cs: seq<Cell>, n: nat, m: real)
    requires n >= 1 && forall k | 0 <= k < |cs| :: cs[k].mass == m
    ensures TotalParticleMass(Seeds(cs, n)) == |cs| as real * m
  {
    SeedsTotals(cs, n);
    UniformCellsMass(cs, m);
  }

  /** Particles k * n up to (k + 1) * n are the seeds of cell c. */
  ghost predicate Block(ps: seq<ParticleState>, k: nat, n: nat, c: Cell) {
    k * n + n <= |ps| && ps[k * n .. k * n + n] == SeedCell(c, n)
  }

  /**
   * n seeds per cell, in cell order: the j-th block of n particles is cell j's seeds from left
   * to right.
   */
  lemma {:induction false} SeedsLayout(cs: seq<Cell>, n: nat)
    ensures |Seeds(cs, n)| == |cs| * n
    ensures forall k | 0 <= k < |cs| :: Block(Seeds(cs, n), k, n, cs[k])
    decreases |cs|
  {
    if cs != [] {
      var init := cs[..|cs| - 1];
      var m := |init|;
      SeedsLayout(init, n);
      var a: seq<ParticleState>, b: seq<ParticleState> := Seeds(init, n), SeedCell(cs[m], n);
      assert Seeds(cs, n) == a + b;
      MulSucc(m, n);
      forall k | 0 <= k < |cs| ensures Block(a + b, k, n, cs[k]) {
        if k < m {
          assert init[k] == cs[k];
          BlockKept(a, b, k, n, cs[k]);
        } else {
          BlockAppended(a, m, n, cs[k]);
        }
      }
    }
  }

  lemma BlockKept(a: seq<ParticleState>, b: seq<ParticleState>, k: nat, n: nat, c: Cell)
    requires Block(a, k, n, c)
    ensures Block(a + b, k, n, c)
  {
    SliceOfAppend(a, b, k * n, k * n + n);
  }

  lemma BlockAppended(a: seq<ParticleState>, m: nat, n: nat, c: Cell)
    requires |a| == m * n
    ensures Block(a + SeedCell(c, n), m, n, c)
  {
    SliceOfAppend(a, SeedCell(c, n), |a|, |a| + n);
  }

  lemma MulSucc(m: nat, n: nat)
    ensures (m + 1) * n == m * n + n
  {
  }

  lemma AppendAssoc<T>(a: seq<T>, b: seq<T>, c: seq<T>)
    ensures a + b + c == a + (b + c)
  {
  }

  lemma SliceOfAppend<T>(a: seq<T>, b: seq<T>, lo: nat, hi: nat)
    requires lo <= hi <= |a| + |b|
    ensures hi <= |a| ==> (a + b)[lo..hi] == a[lo..hi]
    ensures lo == |a| && hi == |a| + |b| ==> (a + b)[lo..hi] == b
  {
  }

  /**
   * On a mesh generated from 0 (xIni = 0), with at least as many elements as cells, every seed
   * of cell k is inside element k, so the lookup in step_solve finds the element the seed was
   * made in.
   */
  lemma {:induction false} SeedsInside(cs: seq<Cell>, n: nat, g: Grid, count: nat)
    requires g.xIni == 0.0 && OnGrid(cs, g.h) && |cs| <= count
    ensures forall j | 0 <= j < |Seeds(cs, n)| :: Inside(g, count, Seeds(cs, n)[j].x)
    decreases |cs|
  {
    if cs != [] {
      var init := cs[..|cs| - 1];
      var m := |init|;
      SeedsInside(init, n, g, count);
      assert Seeds(cs, n) == Seeds(init, n) + SeedCell(cs[m], n);
      CellSeedsInside(cs[m], m, n, g, count);
      AllInsideAppend(Seeds(init, n), SeedCell(cs[m], n), g, count);
    }
  }

  ghost predicate AllInside(ps: seq<ParticleState>, g: Grid, count: nat) {
    forall j | 0 <= j < |ps| :: Inside(g, count, ps[j].x)
  }

  lemma AllInsideAppend(a: seq<ParticleState>, b: seq<ParticleState>, g: Grid, count: nat)
    requires AllInside(a, g, count) && AllInside(b, g, count)
    ensures AllInside(a + b, g, count)
  {
    forall j | 0 <= j < |a + b| ensures Inside(g, count, (a + b)[j].x) {
      if j >= |a| {
        assert (a + b)[j] == b[j - |a|];
      }
    }
  }

  /** The seeds of the cell spanning [m * h, (m + 1) * h] are all inside element m. */
  lemma CellSeedsInside(c: Cell, m: nat, n: nat, g: Grid, count: nat)
    requires g.xIni == 0.0 && g.h > 0.0 && m < count
    requires c.xIni == m as real * g.h && c.length == g.h
    ensures forall i | 0 <= i < n :: Inside(g, count, SeedCell(c, n)[i].x)
  {
    assert (m + 1) as real * g.h == m as real * g.h + g.h;
    forall i | 0 <= i < n ensures Inside(g, count, SeedCell(c, n)[i].x) {
      SeedSpacing(c, n, i);
      LocateInside(g, count, SeedCell(c, n)[i].x, m);
    }
  }

  /**
   * On such a mesh the mapping phase of the first step (after the reset) succeeds and hands
   * the nodes exactly the mass of the elements the particles were seeded from.
   */
  lemma SeededMassReachesNodes(ns: seq<NodeState>, cs: seq<Cell>, n: nat, g: Grid)
    requires n >= 1 && g.xIni == 0.0 && Placed(ns, g) && |ns| == |cs| + 1 && OnGrid(cs, g.h)
    ensures var ps := ResetParticles(Seeds(cs, n));
            MapAll(ResetAll(ns), ps, g).Ok? &&
            TotalNodeMass(MapAll(ResetAll(ns), ps, g).value) == CellsMass(cs)
  {
    var ps := Seeds(cs, n);
    var qs := ResetParticles(ps);
    SeedsInside(cs, n, g, ElementCount(ns));
    forall i | 0 <= i < |qs| ensures Inside(g, ElementCount(ns), qs[i].x) {
      assert qs[i].x == ps[i].x;
    }
    MappedMassIsParticleMass(ns, qs, g);
    SameMaterialPointsSameTotals(ps, qs);
    SeedsTotals(cs, n);
  }
}
