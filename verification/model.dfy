/**
 * model.py: the solver object. It owns a generated mesh, the particles it seeds in it, the
 * time step and the history of particle snapshots. Every method is proved to compute what the
 * value-level functions of Usl, Seeding and TimeSteps say, and the properties are proved there.
 */
module Models {
  import opened Wrappers
  import opened Numeric
  import opened Materials
  import opened Particles
  import opened Nodes
  import opened Elements
  import opened Meshes
  import opened Usl
  import opened Seeding
  import opened TimeSteps

  /** What generate_particles reads from an element. */
  function CellOf(el: Element): (r: Cell)
    requires |el.nodes| >= 2
  {
    Cell(el.XIni(), el.Length(), el.mass, el.volume, el.material)
  }

  /** No particle object occurs twice. */
  ghost predicate ParticlesDistinct(ps: seq<Particle>) {
    forall i, j | 0 <= i < j < |ps| :: ps[i] != ps[j]
  }

  /** The values of the particles, in order. */
  function StatesOf(ps: seq<Particle>): (r: seq<ParticleState>)
    reads ps
    ensures |r| == |ps|
    ensures forall i | 0 <= i < |ps| :: r[i] == ps[i].State()
  {
    seq(|ps|, i requires 0 <= i < |ps| reads ps => ps[i].State())
  }

  class Model {
    const mesh: Mesh
    const numParticlesPerEl: nat
    const totalTime: real
    /** The elastic wave speed of each element's material, in mesh order (sqrt(young / rho), supplied by the caller). */
    const waveSpeeds: seq<real>
    var dt: real
    var particles: seq<Particle>
    var result: seq<seq<ParticleState>>

    /** What a step relies on: a chain of elements and no particle listed twice. */
    ghost predicate Ready()
      reads this, mesh
    {
      mesh.Chain() && ParticlesDistinct(particles)
    }

    /**
     * The time step is the one define_dt computes from positive wave speeds, a positive mesh
     * length and a positive total time.
     */
    ghost predicate Timed()
      reads this, mesh
    {
      mesh.numEls >= 1 && mesh.Length() > 0.0 && totalTime > 0.0 &&
      |waveSpeeds| == |mesh.elements| && waveSpeeds != [] && MaxOf(waveSpeeds) > 0.0 &&
      (forall k | 0 <= k < |waveSpeeds| :: IsWaveSpeed(mesh.elements[k].material, waveSpeeds[k])) &&
      TimeSteps.DefineDt(mesh.numEls, mesh.Length(), waveSpeeds, totalTime) == Ok(dt)
    }

    /** A step define_dt computed is positive and leaves at least one step to take. */
    lemma TimedSteps()
      requires Timed()
      ensures dt > 0.0 && TimeSteps.NumberOfSteps(totalTime, dt) >= 1
    {
      DefinedDtSteps(mesh.numEls, mesh.Length(), waveSpeeds, totalTime, dt);
    }

    /** A model over a generated mesh, timed by define_dt. */
    ghost predicate Valid()
      reads this, mesh
    {
      Ready() && mesh.Valid() && Timed()
    }

    /** What the element lookup reads from the mesh. */
    function LookupGrid(): (r: Grid)
      requires mesh.numEls != 0
    {
      Grid(mesh.xIni, mesh.ElementsLength())
    }

    function ParticleStates(): (r: seq<ParticleState>)
      reads this, particles
      ensures |r| == |particles|
      ensures forall i | 0 <= i < |particles| :: r[i] == particles[i].State()
    {
      StatesOf(particles)
    }

    function State(): (r: Usl.State)
      reads this, mesh, mesh.nodes, particles
    {
      Usl.State(mesh.NodeStates(), ParticleStates())
    }

    function Cells(): (cs: seq<Cell>)
      reads mesh
      requires mesh.Chain()
      ensures |cs| == |mesh.elements|
    {
      seq(|mesh.elements|, k requires 0 <= k < |mesh.elements| && |mesh.elements[k].nodes| >= 2 reads mesh =>
            CellOf(mesh.elements[k]))
    }

    /**
     * Builds the model on a generated mesh: define_dt, then generate_particles. The
     * requirements are enough for define_dt to raise nothing and to yield at least one step.
     */
    constructor(mesh: Mesh, numParticlesPerEl: nat, totalTime: real, waveSpeeds: seq<real>)
      requires mesh.Valid() && mesh.Length() > 0.0 && totalTime > 0.0
      requires |waveSpeeds| == |mesh.elements| && MaxOf(waveSpeeds) > 0.0
      requires forall k | 0 <= k < |waveSpeeds| :: IsWaveSpeed(mesh.elements[k].material, waveSpeeds[k])
      ensures Valid()
      ensures this.mesh == mesh && this.numParticlesPerEl == numParticlesPerEl && this.totalTime == totalTime
      ensures TimeSteps.DefineDt(mesh.numEls, mesh.Length(), waveSpeeds, totalTime) == Ok(dt)
      ensures ParticleStates() == Seeds(Cells(), numParticlesPerEl)
      ensures forall j | 0 <= j < |particles| :: fresh(particles[j])
      ensures result == []
    {
      this.mesh := mesh;
      this.numParticlesPerEl := numParticlesPerEl;
      this.totalTime := totalTime;
      this.waveSpeeds := waveSpeeds;
      dt := 0.0;
      particles := [];
      result := [];
      new;
      DefineDtStable(mesh.numEls, mesh.Length(), waveSpeeds, totalTime);
      DefineDt();
      GenerateParticles();
    }

    /** define_dt: a tenth of the time a wave takes to cross an element, shortened to divide the total time evenly. */
    method DefineDt()
      requires mesh.numEls != 0 && waveSpeeds != []
      requires TimeSteps.DefineDt(mesh.numEls, mesh.Length(), waveSpeeds, totalTime).Ok?
      modifies this
      ensures dt == TimeSteps.DefineDt(mesh.numEls, mesh.Length(), waveSpeeds, totalTime).value
      ensures particles == old(particles) && result == old(result)
    {
      var c := MaxOf(waveSpeeds);
      dt := 0.1 * mesh.ElementsLength() / c;
      var n := Ceil(totalTime / dt);
      dt := totalTime / n as real;
    }

    /** number_of_steps: the whole number of steps of length dt that make up the total time. */
    method NumberOfSteps() returns (n: int)
      requires dt != 0.0
      ensures n == TimeSteps.NumberOfSteps(totalTime, dt)
    {
      n := Round(totalTime / dt);
    }

    /** The particle constructor call of generate_particles, and the append. */
    method AddParticle(x: real, mass: real, volume: real, material: Material)
      modifies this
      ensures |particles| == |old(particles)| + 1 && fresh(particles[|particles| - 1])
      ensures particles[..|particles| - 1] == old(particles)
      ensures ParticleStates() == old(ParticleStates()) + [Fresh(x, 0.0, mass, volume, material)]
      ensures ParticlesDistinct(old(particles)) ==> ParticlesDistinct(particles)
      ensures dt == old(dt) && result == old(result)
    {
      var p := new Particle(x, mass := mass, volume := volume, material := material);
      particles := particles + [p];
    }

    /** The inner loop of generate_particles: the seeds of one element. */
    method AddSeeds(el: Element, ghost c: Cell)
      requires |el.nodes| >= 2 && c == CellOf(el)
      modifies this
      ensures ParticleStates() == old(ParticleStates()) + SeedCell(c, numParticlesPerEl)
      ensures forall j | 0 <= j < |particles| :: particles[j] in old(particles) || fresh(particles[j])
      ensures ParticlesDistinct(old(particles)) ==> ParticlesDistinct(particles)
      ensures dt == old(dt) && result == old(result)
    {
      var npe := numParticlesPerEl;
      var dx := el.Length() / (npe + 1) as real;
      ghost var ps0 := ParticleStates();
      ghost var added: seq<ParticleState> := [];
      for i := 0 to npe
        invariant ParticleStates() == ps0 + added
        invariant |added| == i && forall q | 0 <= q < i :: added[q] == Seed(c, npe, q)
        invariant forall j | 0 <= j < |particles| :: particles[j] in old(particles) || fresh(particles[j])
        invariant ParticlesDistinct(old(particles)) ==> ParticlesDistinct(particles)
        invariant dt == old(dt) && result == old(result)
      {
        assert Seed(c, npe, i) == Fresh(el.XIni() + (i + 1) as real * dx, 0.0, el.mass / npe as real, el.volume / npe as real, el.material);
        AddParticle(el.XIni() + (i + 1) as real * dx, el.mass / npe as real, el.volume / npe as real, el.material);
        assert ps0 + added + [Seed(c, npe, i)] == ps0 + (added + [Seed(c, npe, i)]);
        added := added + [Seed(c, npe, i)];
      }
      assert added == SeedCell(c, npe);
    }

    /** generate_particles: appends the seeds of every element, element by element. */
    method GenerateParticles()
      requires mesh.Chain()
      modifies this
      ensures ParticleStates() == old(ParticleStates()) + Seeds(Cells(), numParticlesPerEl)
      ensures forall j | 0 <= j < |particles| :: particles[j] in old(particles) || fresh(particles[j])
      ensures ParticlesDistinct(old(particles)) ==> ParticlesDistinct(particles)
      ensures dt == old(dt) && result == old(result)
    {
      ghost var cs := Cells();
      ghost var ps0 := ParticleStates();
      ghost var added: seq<ParticleState> := [];
      for k := 0 to |mesh.elements|
        invariant ParticleStates() == ps0 + added && added == Seeds(cs[..k], numParticlesPerEl)
        invariant forall j | 0 <= j < |particles| :: particles[j] in old(particles) || fresh(particles[j])
        invariant ParticlesDistinct(old(particles)) ==> ParticlesDistinct(particles)
        invariant dt == old(dt) && result == old(result)
      {
        AddSeeds(mesh.elements[k], cs[k]);
        SeedsNext(cs, k, numParticlesPerEl);
        AppendAssoc(ps0, added, SeedCell(cs[k], numParticlesPerEl));
        added := added + SeedCell(cs[k], numParticlesPerEl);
      }
      assert cs[..|mesh.elements|] == cs;
    }

    /** element_that_contains_particle: the element at index floor((x - x_ini) / h), a negative index counting from the end. */
    method ElementThatContainsParticle(p: Particle) returns (r: Result<Element, Fault>)
      ensures mesh.numEls == 0 ==> r == Err(ZeroDivision)
      ensures mesh.numEls != 0 ==>
                match Locate(LookupGrid(), |mesh.elements|, p.x)
                case Ok(k) => r == Ok(mesh.elements[k])
                case Err(f) => r == Err(f)
    {
      if mesh.numEls == 0 {
        return Err(ZeroDivision);
      }
      var h := mesh.ElementsLength();
      if h == 0.0 {
        return Err(ZeroDivision);
      }
      var n := Floor((p.x - mesh.xIni) / h);
      match PyIndex(n, |mesh.elements|)
      case None => r := Err(ElementIndexOutOfRange);
      case Some(k) => r := Ok(mesh.elements[k]);
    }

    /** reset: the mesh's nodes, then every particle. */
    method Reset()
      requires Ready()
      modifies mesh.nodes, particles
      ensures mesh.NodeStates() == ResetAll(old(mesh.NodeStates()))
      ensures ParticleStates() == ResetParticles(old(ParticleStates()))
    {
      ghost var ps0 := ParticleStates();
      mesh.Reset();
      for j := 0 to |particles|
        invariant forall q | 0 <= q < |particles| ::
                    particles[q].State() == if q < j then ps0[q].Reset() else ps0[q]
        invariant mesh.NodeStates() == ResetAll(old(mesh.NodeStates()))
      {
        particles[j].Reset();
      }
    }

    /** map_mass, map_momentum and map_force of one particle onto one node of its element. */
    method MapParticleOntoNode(n: Node, ghost idx: nat, p: Particle, lx: real) returns (f: Option<Fault>)
      requires Ready() && idx < |mesh.nodes| && mesh.nodes[idx] == n
      modifies n
      ensures var r := MapOnto(old(n.State()), p.State(), lx);
              (f.None? <==> r.Ok?) &&
              (r.Ok? ==> mesh.NodeStates() == old(mesh.NodeStates())[idx := r.value]) &&
              (r.Err? ==> f == Some(r.error))
    {
      n.MapMassFromParticle(p, lx);
      n.MapMomentumFromParticle(p, lx);
      if lx == 0.0 && p.x == n.x {
        return Some(ZeroDivision);
      }
      n.MapForceFromParticle(p, lx);
      f := None;
      assert forall q | 0 <= q < |mesh.nodes| && q != idx :: mesh.nodes[q] != n;
    }

    /** The loop over the nodes of the particle's element, k. */
    method MapParticleOntoElement(p: Particle, el: Element, ghost k: nat) returns (f: Option<Fault>)
      requires Ready() && k < mesh.numEls && el == mesh.elements[k]
      modifies mesh.nodes
      ensures Outcome(f, mesh.NodeStates()) == MapToNodes(old(mesh.NodeStates()), p.State(), [k, k + 1], el.Length())
    {
      var lx := el.Length();
      ghost var ns0 := mesh.NodeStates();
      ghost var ks: seq<nat> := [k, k + 1];
      f := None;
      for i := 0 to |el.nodes|
        invariant f.None? && MapToNodes(ns0, p.State(), ks[..i], lx).Ok?
        invariant mesh.NodeStates() == MapToNodes(ns0, p.State(), ks[..i], lx).value
      {
        var n := el.nodes[i];
        assert n == mesh.nodes[k + i];
        assert ks[..i + 1][..i] == ks[..i];
        f := MapParticleOntoNode(n, k + i, p, lx);
        if f.Some? {
          if i == 0 {
            assert ks[..2][..1] == ks[..1];
          }
          assert ks[..2] == ks;
          return;
        }
      }
      assert ks[..2] == ks;
    }

    /** One iteration of the particle-to-node loop: locate particle j, then map it onto its element's nodes. */
    method MapOne(j: nat, ghost ns: seq<NodeState>, ghost p0: ParticleState) returns (f: Option<Fault>)
      requires Ready() && j < |particles| && ns == mesh.NodeStates() && p0 == particles[j].State()
      modifies mesh.nodes
      ensures Outcome(f, mesh.NodeStates()) == Usl.MapParticle(ns, p0, LookupGrid())
    {
      var p := particles[j];
      ghost var ns0 := mesh.NodeStates();
      assert ElementCount(ns0) == |mesh.elements|;
      var r := ElementThatContainsParticle(p);
      if r.Err? {
        return Some(r.error);
      }
      var el := r.value;
      ghost var k := Locate(LookupGrid(), |mesh.elements|, p.x).value;
      assert el.Length() == ns0[k + 1].x - ns0[k].x;
      f := MapParticleOntoElement(p, el, k);
    }

    /** The particle-to-node loop of step_solve. */
    method MapParticles() returns (f: Option<Fault>)
      requires Ready()
      modifies mesh.nodes
      ensures Outcome(f, mesh.NodeStates()) == MapAll(old(mesh.NodeStates()), ParticleStates(), LookupGrid())
      ensures ParticleStates() == old(ParticleStates())
    {
      ghost var ns0 := mesh.NodeStates();
      ghost var ps := ParticleStates();
      ghost var g := LookupGrid();
      f := None;
      for j := 0 to |particles|
        invariant f.None? && ParticleStates() == ps
        invariant MapAll(ns0, ps[..j], g).Ok? && mesh.NodeStates() == MapAll(ns0, ps[..j], g).value
      {
        MapAllNext(ns0, ps, g, j);
        f := MapOne(j, MapAll(ns0, ps[..j], g).value, ps[j]);
        if f.Some? {
          MapAllKeepsFault(ns0, ps, g, j + 1);
          return;
        }
      }
      assert ps[..|particles|] == ps;
    }

    /** The nodal momentum loop of step_solve. */
    method UpdateNodalMomenta()
      requires Ready()
      modifies mesh.nodes
      ensures mesh.NodeStates() == UpdateMomenta(old(mesh.NodeStates()), dt)
      ensures ParticleStates() == old(ParticleStates())
    {
      ghost var ns0 := mesh.NodeStates();
      for i := 0 to |mesh.nodes|
        invariant forall q | 0 <= q < |mesh.nodes| ::
                    mesh.nodes[q].State() == if q < i then ns0[q].MomentumUpdated(dt) else ns0[q]
      {
        mesh.nodes[i].UpdateMomentum(dt);
      }
    }

    /** The velocity and position updates of particle j from the nodes of its element, k. */
    method AdvanceParticle(j: nat, el: Element, ghost k: nat) returns (f: Option<Fault>)
      requires Ready() && j < |particles| && k < mesh.numEls && el == mesh.elements[k]
      modifies particles[j]
      ensures Outcome(f, particles[j].State()) == AdvanceOverNodes(mesh.NodeStates(), old(particles[j].State()), [k, k + 1], el.Length(), dt)
    {
      var p := particles[j];
      var lx := el.Length();
      ghost var ns := mesh.NodeStates();
      ghost var p0 := p.State();
      ghost var ks: seq<nat> := [k, k + 1];
      f := None;
      for i := 0 to |el.nodes|
        invariant f.None? && AdvanceOverNodes(ns, p0, ks[..i], lx, dt).Ok?
        invariant p.State() == AdvanceOverNodes(ns, p0, ks[..i], lx, dt).value
      {
        var n := el.nodes[i];
        assert n == mesh.nodes[k + i];
        assert ks[..i + 1][..i] == ks[..i];
        if n.mass == 0.0 {
          if i == 0 {
            assert ks[..2][..1] == ks[..1];
          }
          assert ks[..2] == ks;
          return Some(ZeroDivision);
        }
        p.UpdateVelocityFromNode(Shape(n.x, p.x, lx), n.force, n.mass, dt);
        p.UpdatePositionFromNode(Shape(n.x, p.x, lx), n.momentum, n.mass, dt);
      }
      assert ks[..2] == ks;
    }

    /** One iteration of the velocity and position loop: locate particle j, then update it from its element's nodes. */
    method AdvanceOne(j: nat, ghost ns: seq<NodeState>, ghost p0: ParticleState) returns (f: Option<Fault>)
      requires Ready() && j < |particles| && ns == mesh.NodeStates() && p0 == particles[j].State()
      modifies particles[j]
      ensures Outcome(f, particles[j].State()) == Advance(ns, p0, LookupGrid(), dt)
    {
      var p := particles[j];
      assert ElementCount(ns) == |mesh.elements|;
      var r := ElementThatContainsParticle(p);
      if r.Err? {
        return Some(r.error);
      }
      var el := r.value;
      ghost var k := Locate(LookupGrid(), |mesh.elements|, p.x).value;
      assert el.Length() == ns[k + 1].x - ns[k].x;
      f := AdvanceParticle(j, el, k);
    }

    /** The velocity and position loop of step_solve. */
    method AdvanceParticles() returns (f: Option<Fault>)
      requires Ready()
      modifies particles
      ensures Outcome(f, ParticleStates()) == AdvanceAll(mesh.NodeStates(), old(ParticleStates()), LookupGrid(), dt)
    {
      ghost var ns := mesh.NodeStates();
      ghost var ps := ParticleStates();
      ghost var g := LookupGrid();
      f := None;
      for j := 0 to |particles|
        invariant f.None? && mesh.NodeStates() == ns
        invariant forall q | 0 <= q < j :: Advance(ns, ps[q], g, dt) == Ok(particles[q].State())
        invariant forall q | j <= q < |particles| :: particles[q].State() == ps[q]
      {
        f := AdvanceOne(j, ns, ps[j]);
        if f.Some? {
          AdvanceAllFirstFault(ns, ps, g, dt, j);
          return;
        }
      }
      AdvanceAllPointwise(ns, ps, g, dt);
      assert ParticleStates() == AdvanceAll(ns, ps, g, dt).value;
    }

    /** The stress update of particle j: the velocity gradient from the nodes of its element, k, then F, volume, strain increment and stress. */
    method StressParticle(j: nat, el: Element, ghost k: nat) returns (f: Option<Fault>)
      requires Ready() && j < |particles| && k < mesh.numEls && el == mesh.elements[k]
      modifies particles[j]
      ensures var r := GradientOverNodes(mesh.NodeStates(), old(particles[j].State()), [k, k + 1], el.Length());
              (f.None? <==> r.Ok?) &&
              (r.Ok? ==>
                 particles[j].State() ==
                 r.value.DeformationGradientUpdated(dt).VolumeUpdated().StrainIncrementUpdated(dt).StressUpdated()) &&
              (r.Err? ==> f == Some(r.error))
    {
      var p := particles[j];
      var lx := el.Length();
      ghost var ns := mesh.NodeStates();
      ghost var p0 := p.State();
      ghost var ks: seq<nat> := [k, k + 1];
      f := None;
      for i := 0 to |el.nodes|
        invariant f.None? && GradientOverNodes(ns, p0, ks[..i], lx).Ok?
        invariant p.State() == GradientOverNodes(ns, p0, ks[..i], lx).value
      {
        var n := el.nodes[i];
        assert n == mesh.nodes[k + i];
        assert ks[..i + 1][..i] == ks[..i];
        if (lx == 0.0 && p.x == n.x) || n.mass == 0.0 {
          if i == 0 {
            assert ks[..2][..1] == ks[..1];
          }
          assert ks[..2] == ks;
          return Some(ZeroDivision);
        }
        p.UpdateVelocityGradient(DiffShape(n.x, p.x, lx), n.Velocity());
      }
      assert ks[..2] == ks;
      p.UpdateDeformationGradient(dt);
      p.UpdateVolume();
      p.UpdateStrainIncrement(dt);
      p.UpdateStress();
    }

    /** One iteration of the stress loop: locate particle j from its moved position, then update its stress. */
    method StressOne(j: nat, ghost ns: seq<NodeState>, ghost p0: ParticleState) returns (f: Option<Fault>)
      requires Ready() && j < |particles| && ns == mesh.NodeStates() && p0 == particles[j].State()
      modifies particles[j]
      ensures Outcome(f, particles[j].State()) == UpdateStress(ns, p0, LookupGrid(), dt)
    {
      var p := particles[j];
      assert ElementCount(ns) == |mesh.elements|;
      var r := ElementThatContainsParticle(p);
      if r.Err? {
        return Some(r.error);
      }
      var el := r.value;
      ghost var k := Locate(LookupGrid(), |mesh.elements|, p.x).value;
      assert el.Length() == ns[k + 1].x - ns[k].x;
      f := StressParticle(j, el, k);
    }

    /** The stress loop of step_solve. */
    method UpdateStresses() returns (f: Option<Fault>)
      requires Ready()
      modifies particles
      ensures Outcome(f, ParticleStates()) == StressAll(mesh.NodeStates(), old(ParticleStates()), LookupGrid(), dt)
    {
      ghost var ns := mesh.NodeStates();
      ghost var ps := ParticleStates();
      ghost var g := LookupGrid();
      f := None;
      for j := 0 to |particles|
        invariant f.None? && mesh.NodeStates() == ns
        invariant forall q | 0 <= q < j :: UpdateStress(ns, ps[q], g, dt) == Ok(particles[q].State())
        invariant forall q | j <= q < |particles| :: particles[q].State() == ps[q]
      {
        f := StressOne(j, ns, ps[j]);
        if f.Some? {
          StressAllFirstFault(ns, ps, g, dt, j);
          return;
        }
      }
      StressAllPointwise(ns, ps, g, dt);
      assert ParticleStates() == StressAll(ns, ps, g, dt).value;
    }

    method UpdateGrid() returns (f: Option<Fault>)
      requires Ready()
      modifies mesh.nodes, particles
      ensures Outcome(f, State()) == GridUpdate(old(State()), LookupGrid(), dt)
    {
      Reset();
      f := MapParticles();
      if f.Some? {
        return;
      }
      UpdateNodalMomenta();
    }

    method UpdateParticles() returns (f: Option<Fault>)
      requires Ready()
      modifies particles
      ensures Outcome(f, State()) == ParticleUpdate(old(State()), LookupGrid(), dt)
    {
      f := AdvanceParticles();
      if f.Some? {
        return;
      }
      f := UpdateStresses();
    }

    /** step_solve: one USL step; a fault stops it where Python would raise. */
    method StepSolve(ghost s: Usl.State) returns (f: Option<Fault>)
      requires Ready() && s == State()
      modifies mesh.nodes, particles
      ensures Ready() && unchanged(this)
      ensures Outcome(f, State()) == Step(s, LookupGrid(), old(dt))
    {
      f := UpdateGrid();
      if f.Some? {
        return;
      }
      f := UpdateParticles();
    }

    /** One iteration of the solver loop: the state and history move from step i of the run to step i + 1. */
    method SolveStep(ghost s0: Usl.State, ghost step: Usl.State -> Result<Usl.State, Fault>, ghost i: nat) returns (f: Option<Fault>)
      requires Ready() && Performs(step, LookupGrid(), dt)
      requires Iterate(s0, step, i).fault.None? && State() == Iterate(s0, step, i).state
      modifies mesh.nodes, particles
      ensures Ready() && unchanged(this)
      ensures var next := Iterate(s0, step, i + 1);
              next.fault == f &&
              (f.None? ==> State() == next.state && next.snapshots == Iterate(s0, step, i).snapshots + [ParticleStates()])
    {
      f := StepSolve(State());
    }

    /** The loop of solve: steps i = 0, 1, ... while i < n, each giving one snapshot. */
    method RunSteps(ghost s0: Usl.State, ghost step: Usl.State -> Result<Usl.State, Fault>, n: int)
      returns (fault: Option<Fault>, snapshots: seq<seq<ParticleState>>)
      requires Ready() && Performs(step, LookupGrid(), dt) && State() == s0
      modifies mesh.nodes, particles
      ensures Ready()
      ensures var run := Iterate(s0, step, if n < 0 then 0 else n);
              snapshots == run.snapshots && fault == run.fault && (fault.None? ==> State() == run.state)
    {
      var i := 0;
      snapshots := [];
      while i < n
        invariant 0 <= i && (i <= n || i == 0)
        invariant Ready()
        invariant Iterate(s0, step, i) == RunResult(State(), snapshots, None)
      {
        var f := SolveStep(s0, step, i);
        if f.Some? {
          fault := f;
          IterateHaltsAtFault(s0, step, i + 1, n);
          return;
        }
        snapshots := snapshots + [ParticleStates()];
        i := i + 1;
      }
      fault := None;
    }

    /**
     * solve: number_of_steps() steps, a snapshot of the particles after each. A fault ends the
     * loop, leaving the snapshots of the steps completed before it; a negative number of steps
     * ends it before the first.
     */
    method Solve() returns (fault: Option<Fault>)
      requires Ready() && dt != 0.0
      modifies this, mesh.nodes, particles
      ensures Ready() && dt == old(dt) && particles == old(particles)
      ensures var run := Run(old(State()), LookupGrid(), dt, TimeSteps.NumberOfSteps(totalTime, dt));
              result == old(result) + run.snapshots && fault == run.fault &&
              (fault.None? ==> State() == run.state)
    {
      var n := NumberOfSteps();
      if n < 0 {
        return Some(NegativeStepCount);
      }
      StepOfPerforms(LookupGrid(), dt);
      var snapshots;
      fault, snapshots := RunSteps(State(), StepOf(LookupGrid(), dt), n);
      result := result + snapshots;
    }

    /** The cells of a generated mesh lie on its grid: cell k spans [k * h, (k + 1) * h]. */
    lemma CellsOnGrid()
      requires mesh.Valid() && mesh.Length() > 0.0
      ensures OnGrid(Cells(), mesh.ElementsLength())
    {
      forall k | 0 <= k < |mesh.elements|
        ensures Cells()[k].xIni == k as real * mesh.ElementsLength() && Cells()[k].length == mesh.ElementsLength()
      {
      }
    }

    /**
     * When every element has the mass rho of a unit volume of one material, as GenerateMesh
     * makes them, the seeded particles weigh num_els * rho together.
     */
    lemma SeededMassOfUniformMesh(rho: real)
      requires mesh.Chain() && numParticlesPerEl >= 1
      requires forall k | 0 <= k < |mesh.elements| :: mesh.elements[k].mass == rho
      ensures TotalParticleMass(Seeds(Cells(), numParticlesPerEl)) == mesh.numEls as real * rho
    {
      CellsOfUniformMesh(rho);
      var cs := Cells();
      var total := TotalParticleMass(Seeds(cs, numParticlesPerEl));
      UniformSeedsMass(cs, numParticlesPerEl, rho);
      assert total == |cs| as real * rho;
      assert |cs| == mesh.numEls;
    }

    /** The cells of a mesh whose elements all weigh rho weigh rho each. */
    lemma CellsOfUniformMesh(rho: real)
      requires mesh.Chain()
      requires forall k | 0 <= k < |mesh.elements| :: mesh.elements[k].mass == rho
      ensures forall k | 0 <= k < |Cells()| :: Cells()[k].mass == rho
    {
      forall k | 0 <= k < |Cells()| ensures Cells()[k].mass == rho {
        assert Cells()[k] == CellOf(mesh.elements[k]);
      }
    }

    /**
     * On a mesh whose xIni is 0, the particles the constructor seeds hand the nodes the mass of
     * every element in the mapping phase of the first step.
     */
    lemma FirstStepMapsAllMass()
      requires mesh.Valid() && mesh.xIni == 0.0 && numParticlesPerEl >= 1 && mesh.Length() > 0.0
      requires ParticleStates() == Seeds(Cells(), numParticlesPerEl)
      ensures var r := MapAll(ResetAll(mesh.NodeStates()), ResetParticles(ParticleStates()), LookupGrid());
              r.Ok? && TotalNodeMass(r.value) == CellsMass(Cells())
    {
      CellsOnGrid();
      var g := LookupGrid();
      assert Placed(mesh.NodeStates(), g);
      SeededMassReachesNodes(mesh.NodeStates(), Cells(), numParticlesPerEl, g);
    }
  }
}
