/**
 * The value-level specification of one Update-Stress-Last step of model.py and of the
 * solve loop: nodes and particles as sequences of values, each phase a function, and the
 * Python exceptions a step can raise as Fault values. Element k of a mesh joins node k to
 * node k + 1, so a step needs only the node values, the mesh's xIni and its element length.
 * Model's methods are proved to compute exactly these functions.
 */
module Usl {
  import opened Wrappers
  import opened Numeric
  import opened Particles
  import opened Nodes

  /**
   * IndexError from an element lookup, ZeroDivisionError from a division by zero, the
   * ValueError max() raises on a mesh without elements, or the ValueError numpy's linspace
   * raises when asked for a negative number of time steps.
   */
  datatype Fault = ElementIndexOutOfRange | ZeroDivision | EmptyMax | NegativeStepCount

  /** What the element lookup reads from the mesh: x_ini and elements_length(). */
  datatype Grid = Grid(xIni: real, h: real)

  /** The number of elements of a chain of nodes. */
  function ElementCount(ns: seq<NodeState>): (n: nat)
    ensures n + 1 == |ns| || (ns == [] && n == 0)
  {
    if ns == [] then 0 else |ns| - 1
  }

  /** The nodes as GenerateMesh lays them out: node i at i * h, counted from 0 (not from xIni). */
  ghost predicate Placed(ns: seq<NodeState>, g: Grid) {
    g.h > 0.0 && forall i | 0 <= i < |ns| :: ns[i].x == i as real * g.h
  }

  lemma ElementLength(ns: seq<NodeState>, g: Grid, k: nat)
    requires Placed(ns, g) && k + 1 < |ns|
    ensures ns[k + 1].x - ns[k].x == g.h
  {
    assert (k + 1) as real * g.h == k as real * g.h + g.h;
  }

  /** Same number of nodes, same positions, same fixity. */
  ghost predicate SameGrid(ns: seq<NodeState>, ns': seq<NodeState>) {
    |ns'| == |ns| && forall i | 0 <= i < |ns| :: ns'[i].x == ns[i].x && ns'[i].isFixed == ns[i].isFixed
  }

  /** Same particles, position by position, as far as mass, initial volume and material go. */
  ghost predicate SameMaterialPoints(ps: seq<ParticleState>, qs: seq<ParticleState>) {
    |qs| == |ps| &&
    forall i | 0 <= i < |ps| ::
      qs[i].mass == ps[i].mass && qs[i].initialVolume == ps[i].initialVolume && qs[i].material == ps[i].material
  }

  // ---------------------------------------------------------------------------------------
  // Element lookup (model.py element_that_contains_particle)
  // ---------------------------------------------------------------------------------------

  /**
   * The index floor((x - xIni) / h) into a list of count elements, a negative index counting
   * from the end as Python does; an element length of 0 divides by zero.
   */
  function Locate(g: Grid, count: nat, x: real): (r: Result<nat, Fault>)
    ensures r.Ok? ==> r.value < count
    ensures r == Err(ZeroDivision) <==> g.h == 0.0
  {
    if g.h == 0.0 then Err(ZeroDivision)
    else
      match PyIndex(Floor((x - g.xIni) / g.h), count)
      case None => Err(ElementIndexOutOfRange)
      case Some(k) => Ok(k)
  }

  lemma FloorOfQuotient(d: real, h: real, k: int)
    requires h > 0.0 && k as real * h <= d < (k + 1) as real * h
    ensures Floor(d / h) == k
  {
    var q := d / h;
    assert q * h == d;
    ScaleStrict(q, k as real, h);
    ScaleStrict(q, (k + 1) as real, h);
    assert k as real <= q < (k + 1) as real;
    var n := Floor(q);
    assert n < k + 1 && k < n + 1;
  }

  /** A position in [xIni + k*h, xIni + (k+1)*h) with 0 <= k < count is located in element k. */
  lemma LocateInside(g: Grid, count: nat, x: real, k: nat)
    requires g.h > 0.0 && k < count
    requires g.xIni + k as real * g.h <= x < g.xIni + (k + 1) as real * g.h
    ensures Locate(g, count, x) == Ok(k)
  {
    FloorOfQuotient(x - g.xIni, g.h, k);
  }

  /** A position less than one element left of xIni is located in the LAST element (index -1). */
  lemma LocateLeftOfDomain(g: Grid, count: nat, x: real)
    requires g.h > 0.0 && count >= 1
    requires g.xIni - g.h <= x < g.xIni
    ensures Locate(g, count, x) == Ok(count - 1)
  {
    FloorOfQuotient(x - g.xIni, g.h, -1);
  }

  /** At or beyond the right end of the domain, and more than count elements to the left, the lookup raises IndexError. */
  lemma LocateOutside(g: Grid, count: nat, x: real)
    requires g.h > 0.0
    requires x >= g.xIni + count as real * g.h || x < g.xIni - count as real * g.h
    ensures Locate(g, count, x) == Err(ElementIndexOutOfRange)
  {
    if x >= g.xIni + count as real * g.h {
      assert (x - g.xIni) / g.h >= count as real;
    } else {
      assert (x - g.xIni) / g.h < -(count as real);
    }
  }

  // ---------------------------------------------------------------------------------------
  // Phase 1: reset
  // ---------------------------------------------------------------------------------------

  /** Reset of every particle: velocity gradient 0, nothing else changes. */
  function ResetParticles(ps: seq<ParticleState>): (r: seq<ParticleState>)
    ensures |r| == |ps|
    ensures forall i | 0 <= i < |ps| :: r[i] == ps[i].(velocityGradient := 0.0)
  {
    seq(|ps|, i requires 0 <= i < |ps| => ps[i].Reset())
  }

  // ---------------------------------------------------------------------------------------
  // Phase 2: particle to node mapping
  // ---------------------------------------------------------------------------------------

  /**
   * map_mass, map_momentum and map_force of one particle onto one node; diff_shape divides
   * by zero when the element has length 0 and the particle sits on the node.
   */
  function MapOnto(s: NodeState, p: ParticleState, lx: real): (r: Result<NodeState, Fault>)
    ensures r.Err? <==> lx == 0.0 && p.x == s.x
    ensures r.Ok? ==> r.value.x == s.x && r.value.isFixed == s.isFixed
    ensures r.Ok? ==> r.value.mass == s.mass + Shape(s.x, p.x, lx) * p.mass
  {
    if lx == 0.0 && p.x == s.x then Err(ZeroDivision)
    else Ok(s.MassMapped(p, lx).MomentumMapped(p, lx).ForceMapped(p, lx))
  }

  ghost predicate Indices(ks: seq<nat>, n: nat) {
    forall j | 0 <= j < |ks| :: ks[j] < n
  }

  /** The loop over an element's nodes (given by their indices ks), in order. */
  function MapToNodes(ns: seq<NodeState>, p: ParticleState, ks: seq<nat>, lx: real): (r: Result<seq<NodeState>, Fault>)
    requires Indices(ks, |ns|)
    ensures r.Ok? ==> SameGrid(ns, r.value)
    decreases |ks|
  {
    if ks == [] then Ok(ns)
    else
      match MapToNodes(ns, p, ks[..|ks| - 1], lx)
      case Err(f) => Err(f)
      case Ok(prev) =>
        var k := ks[|ks| - 1];
        match MapOnto(prev[k], p, lx)
        case Err(f) => Err(f)
        case Ok(t) => Ok(prev[k := t])
  }

  /** One iteration of the mapping loop: locate the particle, then map it onto the element's two nodes. */
  function MapParticle(ns: seq<NodeState>, p: ParticleState, g: Grid): (r: Result<seq<NodeState>, Fault>)
    ensures r.Ok? ==> SameGrid(ns, r.value)
  {
    match Locate(g, ElementCount(ns), p.x)
    case Err(f) => Err(f)
    case Ok(k) => MapToNodes(ns, p, [k, k + 1], ns[k + 1].x - ns[k].x)
  }

  /** The mapping loop over the particles, in order; the first fault aborts it. */
  function MapAll(ns: seq<NodeState>, ps: seq<ParticleState>, g: Grid): (r: Result<seq<NodeState>, Fault>)
    ensures r.Ok? ==> SameGrid(ns, r.value)
    decreases |ps|
  {
    if ps == [] then Ok(ns)
    else
      match MapAll(ns, ps[..|ps| - 1], g)
      case Err(f) => Err(f)
      case Ok(prev) => MapParticle(prev, ps[|ps| - 1], g)
  }

  // ---------------------------------------------------------------------------------------
  // Phase 3: nodal momentum update
  // ---------------------------------------------------------------------------------------

  function UpdateMomenta(ns: seq<NodeState>, dt: real): (r: seq<NodeState>)
    ensures SameGrid(ns, r)
    ensures forall i | 0 <= i < |ns| ::
              r[i].mass == ns[i].mass && r[i].force == ns[i].force &&
              r[i].momentum == (if ns[i].isFixed then 0.0 else ns[i].momentum + ns[i].force * dt)
  {
    seq(|ns|, i requires 0 <= i < |ns| => ns[i].MomentumUpdated(dt))
  }

  // ---------------------------------------------------------------------------------------
  // Phase 4: particle velocity and position from the nodes
  // ---------------------------------------------------------------------------------------

  /** update_velocity_from_node then update_position_from_node, each with the node's shape at the particle's current x. */
  function AdvanceFromNode(p: ParticleState, s: NodeState, lx: real, dt: real): (r: Result<ParticleState, Fault>)
    ensures r.Err? <==> s.mass == 0.0
    ensures r.Ok? ==> r.value == p.(velocity := r.value.velocity, x := r.value.x)
  {
    if s.mass == 0.0 then Err(ZeroDivision)
    else
      var q := p.VelocityFromNode(Shape(s.x, p.x, lx), s.force, s.mass, dt);
      Ok(q.PositionFromNode(Shape(s.x, q.x, lx), s.momentum, s.mass, dt))
  }

  /** The loop over an element's nodes; x moves after the first node, before the second node's shape is taken. */
  function AdvanceOverNodes(ns: seq<NodeState>, p: ParticleState, ks: seq<nat>, lx: real, dt: real): (r: Result<ParticleState, Fault>)
    requires Indices(ks, |ns|)
    ensures r.Ok? ==> r.value == p.(velocity := r.value.velocity, x := r.value.x)
    decreases |ks|
  {
    if ks == [] then Ok(p)
    else
      match AdvanceOverNodes(ns, p, ks[..|ks| - 1], lx, dt)
      case Err(f) => Err(f)
      case Ok(q) => AdvanceFromNode(q, ns[ks[|ks| - 1]], lx, dt)
  }

  /** One iteration of the velocity/position loop: the element is located once, before either node. */
  function Advance(ns: seq<NodeState>, p: ParticleState, g: Grid, dt: real): (r: Result<ParticleState, Fault>)
    ensures r.Ok? ==> r.value == p.(velocity := r.value.velocity, x := r.value.x)
  {
    match Locate(g, ElementCount(ns), p.x)
    case Err(f) => Err(f)
    case Ok(k) => AdvanceOverNodes(ns, p, [k, k + 1], ns[k + 1].x - ns[k].x, dt)
  }

  /** The velocity/position loop over the particles, in order; the first fault aborts it. */
  function AdvanceAll(ns: seq<NodeState>, ps: seq<ParticleState>, g: Grid, dt: real): (r: Result<seq<ParticleState>, Fault>)
    ensures r.Ok? ==> SameMaterialPoints(ps, r.value)
    decreases |ps|
  {
    if ps == [] then Ok([])
    else
      match AdvanceAll(ns, ps[..|ps| - 1], g, dt)
      case Err(f) => Err(f)
      case Ok(qs) =>
        match Advance(ns, ps[|ps| - 1], g, dt)
        case Err(f) => Err(f)
        case Ok(q) => Ok(qs + [q])
  }

  // ---------------------------------------------------------------------------------------
  // Phase 5: stress update
  // ---------------------------------------------------------------------------------------

  /**
   * update_velocity_gradient with the node's diff_shape and velocity(): the first divides by
   * zero for an element of length 0 with the particle on the node, the second for a massless node.
   */
  function GradientFromNode(p: ParticleState, s: NodeState, lx: real): (r: Result<ParticleState, Fault>)
    ensures r.Err? <==> (lx == 0.0 && p.x == s.x) || s.mass == 0.0
    ensures r.Ok? ==> r.value == p.(velocityGradient := r.value.velocityGradient)
  {
    if (lx == 0.0 && p.x == s.x) || s.mass == 0.0 then Err(ZeroDivision)
    else Ok(p.VelocityGradientAdded(DiffShape(s.x, p.x, lx), s.Velocity()))
  }

  function GradientOverNodes(ns: seq<NodeState>, p: ParticleState, ks: seq<nat>, lx: real): (r: Result<ParticleState, Fault>)
    requires Indices(ks, |ns|)
    ensures r.Ok? ==> r.value == p.(velocityGradient := r.value.velocityGradient)
    decreases |ks|
  {
    if ks == [] then Ok(p)
    else
      match GradientOverNodes(ns, p, ks[..|ks| - 1], lx)
      case Err(f) => Err(f)
      case Ok(q) => GradientFromNode(q, ns[ks[|ks| - 1]], lx)
  }

  /** One iteration of the stress loop: relocate from the moved x, gradient, then F, volume, strain, stress. */
  function UpdateStress(ns: seq<NodeState>, p: ParticleState, g: Grid, dt: real): (r: Result<ParticleState, Fault>)
    ensures r.Ok? ==> r.value.mass == p.mass && r.value.initialVolume == p.initialVolume && r.value.material == p.material
    ensures r.Ok? ==> r.value.x == p.x && r.value.velocity == p.velocity && r.value.VolumeConsistent()
  {
    match Locate(g, ElementCount(ns), p.x)
    case Err(f) => Err(f)
    case Ok(k) =>
      match GradientOverNodes(ns, p, [k, k + 1], ns[k + 1].x - ns[k].x)
      case Err(f) => Err(f)
      case Ok(q) =>
        Ok(q.DeformationGradientUpdated(dt).VolumeUpdated().StrainIncrementUpdated(dt).StressUpdated())
  }

  /**
   * What the stress update does with the velocity gradient L gathered from the nodes: F grows
   * by the factor 1 + L * dt, and the stress by young * L * dt.
   */
  lemma UpdateStressEffect(ns: seq<NodeState>, p: ParticleState, g: Grid, dt: real)
    requires UpdateStress(ns, p, g, dt).Ok?
    ensures var q := UpdateStress(ns, p, g, dt).value;
            q.deformationGradient == p.deformationGradient * (1.0 + q.velocityGradient * dt) &&
            q.stress == p.stress + p.material.young * q.velocityGradient * dt
  {
    var k := Locate(g, ElementCount(ns), p.x).value;
    var q := GradientOverNodes(ns, p, [k, k + 1], ns[k + 1].x - ns[k].x).value;
    StrainThenStress(q.DeformationGradientUpdated(dt).VolumeUpdated(), dt);
  }

  /** The stress loop over the particles, in order; the first fault aborts it. */
  function StressAll(ns: seq<NodeState>, ps: seq<ParticleState>, g: Grid, dt: real): (r: Result<seq<ParticleState>, Fault>)
    ensures r.Ok? ==> SameMaterialPoints(ps, r.value)
    ensures r.Ok? ==> forall i | 0 <= i < |ps| :: r.value[i].VolumeConsistent()
    decreases |ps|
  {
    if ps == [] then Ok([])
    else
      match StressAll(ns, ps[..|ps| - 1], g, dt)
      case Err(f) => Err(f)
      case Ok(qs) =>
        match UpdateStress(ns, ps[|ps| - 1], g, dt)
        case Err(f) => Err(f)
        case Ok(q) => Ok(qs + [q])
  }

  // ---------------------------------------------------------------------------------------
  // The whole step and the solve loop
  // ---------------------------------------------------------------------------------------

  /** What a phase that may raise leaves behind: its new value, or the fault it raised. */
  function Outcome<T>(fault: Option<Fault>, value: T): (r: Result<T, Fault>) {
    match fault
    case None => Ok(value)
    case Some(e) => Err(e)
  }

  datatype State = State(nodes: seq<NodeState>, particles: seq<ParticleState>)

  /** The grid half of step_solve: reset, map the particles onto the nodes, update the nodal momenta. */
  function GridUpdate(s: State, g: Grid, dt: real): (r: Result<State, Fault>)
    ensures r.Ok? ==> SameGrid(s.nodes, r.value.nodes) && r.value.particles == ResetParticles(s.particles)
  {
    var ps1 := ResetParticles(s.particles);
    match MapAll(ResetAll(s.nodes), ps1, g)
    case Err(f) => Err(f)
    case Ok(ns2) => Ok(State(UpdateMomenta(ns2, dt), ps1))
  }

  /** The particle half of step_solve: velocities and positions, then strains and stresses. */
  function ParticleUpdate(s: State, g: Grid, dt: real): (r: Result<State, Fault>)
    ensures r.Ok? ==> r.value.nodes == s.nodes && SameMaterialPoints(s.particles, r.value.particles)
  {
    match AdvanceAll(s.nodes, s.particles, g, dt)
    case Err(f) => Err(f)
    case Ok(ps2) =>
      match StressAll(s.nodes, ps2, g, dt)
      case Err(f) => Err(f)
      case Ok(ps3) => Ok(State(s.nodes, ps3))
  }

  /**
   * step_solve: reset, map, momentum update, velocity/position update, stress update. A step
   * keeps the grid and every particle's mass, initial volume and material.
   */
  function Step(s: State, g: Grid, dt: real): (r: Result<State, Fault>)
    ensures r.Ok? ==> SameGrid(s.nodes, r.value.nodes) && SameMaterialPoints(s.particles, r.value.particles)
  {
    match GridUpdate(s, g, dt)
    case Err(f) => Err(f)
    case Ok(t) => ParticleUpdate(t, g, dt)
  }

  /** A step keeps the grid, every particle's mass, initial volume and material, and sets each volume to F times V0. */
  lemma StepKeepsMaterialPoints(s: State, g: Grid, dt: real)
    requires Step(s, g, dt).Ok?
    ensures SameGrid(s.nodes, Step(s, g, dt).value.nodes)
    ensures SameMaterialPoints(s.particles, Step(s, g, dt).value.particles)
    ensures var ps := Step(s, g, dt).value.particles;
            forall i | 0 <= i < |ps| :: ps[i].VolumeConsistent()
  {
    var ns1 := ResetAll(s.nodes);
    var ps1 := ResetParticles(s.particles);
    var ns2 := MapAll(ns1, ps1, g).value;
    var ns3 := UpdateMomenta(ns2, dt);
    var ps2 := AdvanceAll(ns3, ps1, g, dt).value;
    var ps3 := StressAll(ns3, ps2, g, dt).value;
    assert Step(s, g, dt) == Ok(State(ns3, ps3));
  }

  /** The outcome of solve: the final state, one snapshot of the particles per completed step, and the fault that stopped it, if any. */
  datatype RunResult = RunResult(state: State, snapshots: seq<seq<ParticleState>>, fault: Option<Fault>)

  /** The solve loop for a given step: n steps, a snapshot after each; a fault ends it with the snapshots taken so far. */
  function Iterate(s: State, step: State -> Result<State, Fault>, n: nat): (r: RunResult)
    ensures |r.snapshots| <= n
    ensures r.fault.None? <==> |r.snapshots| == n
    decreases n
  {
    if n == 0 then RunResult(s, [], None)
    else
      var prev := Iterate(s, step, n - 1);
      if prev.fault.Some? then prev
      else
        match step(prev.state)
        case Err(f) => prev.(fault := Some(f))
        case Ok(next) => RunResult(next, prev.snapshots + [next.particles], None)
  }

  function StepOf(g: Grid, dt: real): (r: State -> Result<State, Fault>) {
    s => Step(s, g, dt)
  }

  /** step is the step of the solver on grid g with time step dt. */
  ghost predicate Performs(step: State -> Result<State, Fault>, g: Grid, dt: real) {
    forall s {:trigger Step(s, g, dt)} :: step(s) == Step(s, g, dt)
  }

  lemma StepOfPerforms(g: Grid, dt: real)
    ensures Performs(StepOf(g, dt), g, dt)
  {
  }

  /** solve: n steps of step_solve; a negative n raises before the first step. */
  function Run(s: State, g: Grid, dt: real, n: int): (r: RunResult)
    ensures |r.snapshots| <= (if n > 0 then n else 0)
    ensures r.fault.None? <==> n >= 0 && |r.snapshots| == n
  {
    if n < 0 then RunResult(s, [], Some(NegativeStepCount))
    else Iterate(s, StepOf(g, dt), n)
  }

  // ---------------------------------------------------------------------------------------
  // Faults propagate: once a loop has failed on a prefix, it fails with the same fault
  // ---------------------------------------------------------------------------------------

  lemma {:induction false} MapAllKeepsFault(ns: seq<NodeState>, ps: seq<ParticleState>, g: Grid, i: nat)
    requires i <= |ps| && MapAll(ns, ps[..i], g).Err?
    ensures MapAll(ns, ps, g) == MapAll(ns, ps[..i], g)
    decreases |ps| - i
  {
    if i == |ps| {
      assert ps[..i] == ps;
    } else {
      assert ps[..i + 1][..i] == ps[..i];
      MapAllKeepsFault(ns, ps, g, i + 1);
    }
  }

  lemma {:induction false} AdvanceAllKeepsFault(ns: seq<NodeState>, ps: seq<ParticleState>, g: Grid, dt: real, i: nat)
    requires i <= |ps| && AdvanceAll(ns, ps[..i], g, dt).Err?
    ensures AdvanceAll(ns, ps, g, dt) == AdvanceAll(ns, ps[..i], g, dt)
    decreases |ps| - i
  {
    if i == |ps| {
      assert ps[..i] == ps;
    } else {
      assert ps[..i + 1][..i] == ps[..i];
      AdvanceAllKeepsFault(ns, ps, g, dt, i + 1);
    }
  }

  lemma {:induction false} StressAllKeepsFault(ns: seq<NodeState>, ps: seq<ParticleState>, g: Grid, dt: real, i: nat)
    requires i <= |ps| && StressAll(ns, ps[..i], g, dt).Err?
    ensures StressAll(ns, ps, g, dt) == StressAll(ns, ps[..i], g, dt)
    decreases |ps| - i
  {
    if i == |ps| {
      assert ps[..i] == ps;
    } else {
      assert ps[..i + 1][..i] == ps[..i];
      StressAllKeepsFault(ns, ps, g, dt, i + 1);
    }
  }

  // ---------------------------------------------------------------------------------------
  // One more iteration of the mapping loop
  // ---------------------------------------------------------------------------------------

  lemma MapAllNext(ns: seq<NodeState>, ps: seq<ParticleState>, g: Grid, j: nat)
    requires j < |ps| && MapAll(ns, ps[..j], g).Ok?
    ensures MapAll(ns, ps[..j + 1], g) == MapParticle(MapAll(ns, ps[..j], g).value, ps[j], g)
  {
    assert ps[..j + 1][..j] == ps[..j];
  }

  // ---------------------------------------------------------------------------------------
  // The two particle loops update each particle on its own
  // ---------------------------------------------------------------------------------------

  /** The velocity/position loop succeeds exactly when every particle's update does, and then updates each particle on its own. */
  lemma {:induction false} AdvanceAllPointwise(ns: seq<NodeState>, ps: seq<ParticleState>, g: Grid, dt: real)
    ensures AdvanceAll(ns, ps, g, dt).Ok? <==> forall i | 0 <= i < |ps| :: Advance(ns, ps[i], g, dt).Ok?
    ensures AdvanceAll(ns, ps, g, dt).Ok? ==>
              forall i | 0 <= i < |ps| :: AdvanceAll(ns, ps, g, dt).value[i] == Advance(ns, ps[i], g, dt).value
    decreases |ps|
  {
    if ps != [] {
      var init := ps[..|ps| - 1];
      AdvanceAllPointwise(ns, init, g, dt);
      assert forall i | 0 <= i < |init| :: init[i] == ps[i];
    }
  }

  /** A fault in the velocity/position loop is the fault of the first particle whose update fails. */
  lemma {:induction false} AdvanceAllFirstFault(ns: seq<NodeState>, ps: seq<ParticleState>, g: Grid, dt: real, j: nat)
    requires j < |ps| && Advance(ns, ps[j], g, dt).Err?
    requires forall i | 0 <= i < j :: Advance(ns, ps[i], g, dt).Ok?
    ensures AdvanceAll(ns, ps, g, dt) == Err(Advance(ns, ps[j], g, dt).error)
    decreases |ps|
  {
    var init := ps[..|ps| - 1];
    assert forall i | 0 <= i < |init| :: init[i] == ps[i];
    if j == |ps| - 1 {
      AdvanceAllPointwise(ns, init, g, dt);
    } else {
      AdvanceAllFirstFault(ns, init, g, dt, j);
    }
  }

  /** The stress loop succeeds exactly when every particle's update does, and then updates each particle on its own. */
  lemma {:induction false} StressAllPointwise(ns: seq<NodeState>, ps: seq<ParticleState>, g: Grid, dt: real)
    ensures StressAll(ns, ps, g, dt).Ok? <==> forall i | 0 <= i < |ps| :: UpdateStress(ns, ps[i], g, dt).Ok?
    ensures StressAll(ns, ps, g, dt).Ok? ==>
              forall i | 0 <= i < |ps| :: StressAll(ns, ps, g, dt).value[i] == UpdateStress(ns, ps[i], g, dt).value
    decreases |ps|
  {
    if ps != [] {
      var init := ps[..|ps| - 1];
      StressAllPointwise(ns, init, g, dt);
      assert forall i | 0 <= i < |init| :: init[i] == ps[i];
    }
  }

  /** A fault in the stress loop is the fault of the first particle whose update fails. */
  lemma {:induction false} StressAllFirstFault(ns: seq<NodeState>, ps: seq<ParticleState>, g: Grid, dt: real, j: nat)
    requires j < |ps| && UpdateStress(ns, ps[j], g, dt).Err?
    requires forall i | 0 <= i < j :: UpdateStress(ns, ps[i], g, dt).Ok?
    ensures StressAll(ns, ps, g, dt) == Err(UpdateStress(ns, ps[j], g, dt).error)
    decreases |ps|
  {
    var init := ps[..|ps| - 1];
    assert forall i | 0 <= i < |init| :: init[i] == ps[i];
    if j == |ps| - 1 {
      StressAllPointwise(ns, init, g, dt);
    } else {
      StressAllFirstFault(ns, init, g, dt, j);
    }
  }

  // ---------------------------------------------------------------------------------------
  // Fixed nodes
  // ---------------------------------------------------------------------------------------

  ghost predicate FixedAtRest(ns: seq<NodeState>) {
    forall i | 0 <= i < |ns| :: ns[i].isFixed ==> ns[i].momentum == 0.0 && ns[i].force == 0.0
  }

  lemma {:induction false} MapToNodesKeepsFixedAtRest(ns: seq<NodeState>, p: ParticleState, ks: seq<nat>, lx: real)
    requires Indices(ks, |ns|) && FixedAtRest(ns) && MapToNodes(ns, p, ks, lx).Ok?
    ensures FixedAtRest(MapToNodes(ns, p, ks, lx).value)
    decreases |ks|
  {
    if ks != [] {
      MapToNodesKeepsFixedAtRest(ns, p, ks[..|ks| - 1], lx);
    }
  }

  lemma {:induction false} MapAllKeepsFixedAtRest(ns: seq<NodeState>, ps: seq<ParticleState>, g: Grid)
    requires FixedAtRest(ns) && MapAll(ns, ps, g).Ok?
    ensures FixedAtRest(MapAll(ns, ps, g).value)
    decreases |ps|
  {
    if ps != [] {
      var init := ps[..|ps| - 1];
      MapAllKeepsFixedAtRest(ns, init, g);
      var prev := MapAll(ns, init, g).value;
      var k := Locate(g, ElementCount(prev), ps[|ps| - 1].x).value;
      MapToNodesKeepsFixedAtRest(prev, ps[|ps| - 1], [k, k + 1], prev[k + 1].x - prev[k].x);
    }
  }

  /** Whatever the state before, every fixed node ends a step with momentum 0 and force 0. */
  lemma StepLeavesFixedNodesAtRest(s: State, g: Grid, dt: real)
    requires Step(s, g, dt).Ok?
    ensures FixedAtRest(Step(s, g, dt).value.nodes)
  {
    var ns1 := ResetAll(s.nodes);
    var ps1 := ResetParticles(s.particles);
    MapAllKeepsFixedAtRest(ns1, ps1, g);
  }

  // ---------------------------------------------------------------------------------------
  // Totals and conservation of mass by the mapping
  // ---------------------------------------------------------------------------------------

  function TotalNodeMass(ns: seq<NodeState>): (r: real)
    decreases |ns|
  {
    if ns == [] then 0.0 else TotalNodeMass(ns[..|ns| - 1]) + ns[|ns| - 1].mass
  }

  function TotalParticleMass(ps: seq<ParticleState>): (r: real)
    decreases |ps|
  {
    if ps == [] then 0.0 else TotalParticleMass(ps[..|ps| - 1]) + ps[|ps| - 1].mass
  }

  function TotalParticleVolume(ps: seq<ParticleState>): (r: real)
    decreases |ps|
  {
    if ps == [] then 0.0 else TotalParticleVolume(ps[..|ps| - 1]) + ps[|ps| - 1].initialVolume
  }

  lemma {:induction false} TotalNodeMassUpdate(ns: seq<NodeState>, k: nat, t: NodeState)
    requires k < |ns|
    ensures TotalNodeMass(ns[k := t]) == TotalNodeMass(ns) - ns[k].mass + t.mass
    decreases |ns|
  {
    var last := |ns| - 1;
    if k == last {
      assert ns[k := t][..last] == ns[..last];
    } else {
      assert ns[k := t][..last] == ns[..last][k := t];
      TotalNodeMassUpdate(ns[..last], k, t);
    }
  }

  lemma {:induction false} MasslessNodes(ns: seq<NodeState>)
    requires forall i | 0 <= i < |ns| :: ns[i].mass == 0.0
    ensures TotalNodeMass(ns) == 0.0
    decreases |ns|
  {
    if ns != [] {
      MasslessNodes(ns[..|ns| - 1]);
    }
  }

  /** Particles with the same masses and initial volumes have the same totals. */
  lemma {:induction false} SameMaterialPointsSameTotals(ps: seq<ParticleState>, qs: seq<ParticleState>)
    requires SameMaterialPoints(ps, qs)
    ensures TotalParticleMass(qs) == TotalParticleMass(ps)
    ensures TotalParticleVolume(qs) == TotalParticleVolume(ps)
    decreases |ps|
  {
    if ps != [] {
      SameMaterialPointsSameTotals(ps[..|ps| - 1], qs[..|qs| - 1]);
    }
  }

  /** Mapping onto an element's two nodes maps onto the first, then onto the second. */
  lemma MapElement(ns: seq<NodeState>, p: ParticleState, k: nat, lx: real)
    requires lx != 0.0 && k + 1 < |ns|
    ensures MapToNodes(ns, p, [k, k + 1], lx)
         == Ok(ns[k := MapOnto(ns[k], p, lx).value][k + 1 := MapOnto(ns[k + 1], p, lx).value])
  {
    var ks := [k, k + 1];
    assert ks[..1] == [k] && ks[..1][..0] == [];
    var t0 := MapOnto(ns[k], p, lx).value;
    assert MapToNodes(ns, p, [k], lx) == Ok(ns[k := t0]);
  }

  lemma MapAllOne(ns: seq<NodeState>, p: ParticleState, g: Grid)
    ensures MapAll(ns, [p], g) == MapParticle(ns, p, g)
  {
    assert [p][..0] == [];
  }

  lemma TotalAfterTwo(ns: seq<NodeState>, k: nat, t0: NodeState, t1: NodeState)
    requires k + 1 < |ns|
    ensures TotalNodeMass(ns[k := t0][k + 1 := t1])
         == TotalNodeMass(ns) - ns[k].mass - ns[k + 1].mass + t0.mass + t1.mass
  {
    TotalNodeMassUpdate(ns, k, t0);
    assert ns[k := t0][k + 1] == ns[k + 1];
    TotalNodeMassUpdate(ns[k := t0], k + 1, t1);
  }

  /** Mapping a particle onto an element of non-zero length changes the total node mass only through the element's two nodes. */
  lemma MapElementMass(ns: seq<NodeState>, p: ParticleState, k: nat, lx: real)
    requires lx != 0.0 && k + 1 < |ns|
    ensures MapToNodes(ns, p, [k, k + 1], lx).Ok?
    ensures TotalNodeMass(MapToNodes(ns, p, [k, k + 1], lx).value)
         == TotalNodeMass(ns) - ns[k].mass - ns[k + 1].mass
            + MapOnto(ns[k], p, lx).value.mass + MapOnto(ns[k + 1], p, lx).value.mass
  {
    MapElement(ns, p, k, lx);
    TotalAfterTwo(ns, k, MapOnto(ns[k], p, lx).value, MapOnto(ns[k + 1], p, lx).value);
  }

  /** The two end nodes of an element holding the particle receive its whole mass between them (partition of unity). */
  lemma MapOntoElementMass(s: NodeState, u: NodeState, p: ParticleState, lx: real)
    requires lx > 0.0 && s.x <= p.x <= s.x + lx && u.x == s.x + lx
    ensures MapOnto(s, p, lx).Ok? && MapOnto(u, p, lx).Ok?
    ensures MapOnto(s, p, lx).value.mass + MapOnto(u, p, lx).value.mass == s.mass + u.mass + p.mass
  {
    var a := Shape(s.x, p.x, lx);
    var b := Shape(u.x, p.x, lx);
    PartitionOfUnity(s.x, lx, p.x);
    assert a * p.mass + b * p.mass == (a + b) * p.mass;
  }

  /** The particle at x is located in an element whose closed span holds x. */
  ghost predicate Inside(g: Grid, count: nat, x: real) {
    Locate(g, count, x).Ok? &&
    Locate(g, count, x).value as real * g.h <= x <= (Locate(g, count, x).value + 1) as real * g.h
  }

  /** A particle inside the element it is located in gives its whole mass to that element's two nodes. */
  lemma MapParticleMass(ns: seq<NodeState>, p: ParticleState, g: Grid)
    requires Placed(ns, g) && Inside(g, ElementCount(ns), p.x)
    ensures MapParticle(ns, p, g).Ok?
    ensures TotalNodeMass(MapParticle(ns, p, g).value) == TotalNodeMass(ns) + p.mass
  {
    var k := Locate(g, ElementCount(ns), p.x).value;
    assert k as real * g.h <= p.x <= (k + 1) as real * g.h;
    assert ns[k].x == k as real * g.h;
    assert ns[k + 1].x == (k + 1) as real * g.h;
    ElementLength(ns, g, k);
    assert MapParticle(ns, p, g) == MapToNodes(ns, p, [k, k + 1], g.h);
    MapElementMass(ns, p, k, g.h);
    MapOntoElementMass(ns[k], ns[k + 1], p, g.h);
  }

  lemma {:induction false} MapAllAddsMass(ns: seq<NodeState>, ps: seq<ParticleState>, g: Grid)
    requires Placed(ns, g)
    requires forall i | 0 <= i < |ps| :: Inside(g, ElementCount(ns), ps[i].x)
    ensures MapAll(ns, ps, g).Ok?
    ensures TotalNodeMass(MapAll(ns, ps, g).value) == TotalNodeMass(ns) + TotalParticleMass(ps)
    decreases |ps|
  {
    if ps != [] {
      var init := ps[..|ps| - 1];
      var p := ps[|ps| - 1];
      MapAllAddsMass(ns, init, g);
      var prev := MapAll(ns, init, g).value;
      assert MapAll(ns, ps, g) == MapParticle(prev, p, g);
      assert Placed(prev, g);
      assert ElementCount(prev) == ElementCount(ns);
      MapParticleMass(prev, p, g);
    }
  }

  /**
   * After the reset and mapping phases, with every particle inside the element it is located
   * in, the node masses add up to the particle masses.
   */
  lemma MappedMassIsParticleMass(ns: seq<NodeState>, ps: seq<ParticleState>, g: Grid)
    requires Placed(ns, g)
    requires forall i | 0 <= i < |ps| :: Inside(g, ElementCount(ns), ps[i].x)
    ensures MapAll(ResetAll(ns), ps, g).Ok?
    ensures TotalNodeMass(MapAll(ResetAll(ns), ps, g).value) == TotalParticleMass(ps)
  {
    MasslessNodes(ResetAll(ns));
    MapAllAddsMass(ResetAll(ns), ps, g);
  }

  lemma ScaleStrict(a: real, b: real, h: real)
    requires h > 0.0
    ensures a < b <==> a * h < b * h
  {
    assert b * h - a * h == (b - a) * h;
  }

  /** The element index of a point at or right of the origin: floor(x / h) elements fit below it, and not one more. */
  lemma FloorBounds(x: real, h: real)
    requires h > 0.0 && x >= 0.0
    ensures 0 <= Floor(x / h)
    ensures Floor(x / h) as real * h <= x < (Floor(x / h) + 1) as real * h
  {
    var q := x / h;
    var k := Floor(q);
    assert q * h == x;
    ScaleStrict(q, 0.0, h);
    assert q < (k + 1) as real;
    ScaleStrict(q, (k + 1) as real, h);
    assert x < (k + 1) as real * h;
    ScaleStrict(q, k as real, h);
    assert k as real * h <= x;
  }

  /** When xIni is 0 (where GenerateMesh puts the first node), every point of the domain is inside its element. */
  lemma InsideAnchoredDomain(g: Grid, count: nat, x: real)
    requires g.h > 0.0 && g.xIni == 0.0 && 0.0 <= x < count as real * g.h
    ensures Inside(g, count, x)
  {
    FloorBounds(x, g.h);
    var k := Floor(x / g.h);
    ScaleStrict(k as real, count as real, g.h);
    LocateInside(g, count, x, k);
  }

  /** A particle sitting on an unfixed, empty node gives that node its own mass and velocity. */
  lemma LoneParticleOnNode(s: NodeState, p: ParticleState, lx: real)
    requires lx > 0.0 && p.x == s.x && p.mass != 0.0
    requires !s.isFixed && s.mass == 0.0 && s.momentum == 0.0
    ensures MapOnto(s, p, lx).Ok?
    ensures MapOnto(s, p, lx).value.mass == p.mass && MapOnto(s, p, lx).value.Velocity() == p.velocity
  {
    var t := MapOnto(s, p, lx).value;
    assert t.mass == p.mass && t.momentum == p.Momentum();
    assert t.Velocity() * p.mass == p.velocity * p.mass;
  }

  /**
   * With elements of length 1 the seeding puts a particle of element 0 at x = 0.5, but with
   * xIni = 1 the lookup puts it in element -1, the last one, and only half its mass reaches
   * the massless nodes at 0, 1 and 2.
   */
  lemma ShiftedDomainLosesMass(ns: seq<NodeState>, p: ParticleState)
    requires |ns| == 3 && Placed(ns, Grid(1.0, 1.0)) && p.x == 0.5
    requires forall i | 0 <= i < |ns| :: ns[i].mass == 0.0
    ensures Locate(Grid(1.0, 1.0), 2, p.x) == Ok(1)
    ensures MapAll(ns, [p], Grid(1.0, 1.0)).Ok?
    ensures TotalNodeMass(MapAll(ns, [p], Grid(1.0, 1.0)).value) == 0.5 * p.mass
  {
    var g := Grid(1.0, 1.0);
    // floor((0.5 - 1) / 1) == -1 names the last element, which spans [1, 2]
    assert ElementCount(ns) == 2;
    LocateLeftOfDomain(g, 2, p.x);
    MapAllOne(ns, p, g);
    ElementLength(ns, g, 1);
    assert MapAll(ns, [p], g) == MapToNodes(ns, p, [1, 2], 1.0);
    MapElementMass(ns, p, 1, 1.0);
    // the seed lies half an element outside the node at 1 and beyond the support of the node at 2
    assert ns[1].x == 1.0 && ns[2].x == 2.0;
    assert Shape(1.0, 0.5, 1.0) == 0.5;
    assert Shape(2.0, 0.5, 1.0) == 0.0;
    MasslessNodes(ns);
  }

  // ---------------------------------------------------------------------------------------
  // The solve loop
  // ---------------------------------------------------------------------------------------

  /** After a fault the run stops: running longer changes nothing. */
  lemma {:induction false} IterateHaltsAtFault(s: State, step: State -> Result<State, Fault>, m: nat, n: nat)
    requires m <= n && Iterate(s, step, m).fault.Some?
    ensures Iterate(s, step, n) == Iterate(s, step, m)
    decreases n - m
  {
    if m < n {
      IterateHaltsAtFault(s, step, m, n - 1);
    }
  }

  /** Later steps never alter earlier snapshots: a shorter run's history is a prefix of a longer one's. */
  lemma {:induction false} IterateExtends(s: State, step: State -> Result<State, Fault>, m: nat, n: nat)
    requires m <= n
    ensures Iterate(s, step, m).snapshots <= Iterate(s, step, n).snapshots
    decreases n - m
  {
    if m < n {
      IterateExtends(s, step, m, n - 1);
    }
  }

  /** Every snapshot of a history has the material points ps. */
  ghost predicate HistoryOf(ps: seq<ParticleState>, h: seq<seq<ParticleState>>) {
    forall j | 0 <= j < |h| :: SameMaterialPoints(ps, h[j])
  }

  /** A step that keeps the material points keeps them in every snapshot. */
  lemma {:induction false} IterateKeepsMaterialPoints(s: State, step: State -> Result<State, Fault>, n: nat)
    requires forall t | step(t).Ok? :: SameMaterialPoints(t.particles, step(t).value.particles)
    ensures SameMaterialPoints(s.particles, Iterate(s, step, n).state.particles)
    ensures HistoryOf(s.particles, Iterate(s, step, n).snapshots)
    decreases n
  {
    if n > 0 {
      IterateKeepsMaterialPoints(s, step, n - 1);
      var prev := Iterate(s, step, n - 1);
      if prev.fault.None? && step(prev.state).Ok? {
        var next := step(prev.state).value;
        SameMaterialPointsTrans(s.particles, prev.state.particles, next.particles);
        assert Iterate(s, step, n).snapshots == prev.snapshots + [next.particles];
        HistoryAppend(s.particles, prev.snapshots, next.particles);
      }
    }
  }

  lemma HistoryAppend(ps: seq<ParticleState>, h: seq<seq<ParticleState>>, qs: seq<ParticleState>)
    requires HistoryOf(ps, h) && SameMaterialPoints(ps, qs)
    ensures HistoryOf(ps, h + [qs])
  {
    forall j | 0 <= j < |h| + 1 ensures SameMaterialPoints(ps, (h + [qs])[j]) {
      if j < |h| {
        assert (h + [qs])[j] == h[j];
      }
    }
  }

  lemma SameMaterialPointsTrans(ps: seq<ParticleState>, qs: seq<ParticleState>, rs: seq<ParticleState>)
    requires SameMaterialPoints(ps, qs) && SameMaterialPoints(qs, rs)
    ensures SameMaterialPoints(ps, rs)
  {
  }

  /** Total particle mass and volume are the same in every snapshot of a run. */
  lemma RunConservesMass(s: State, g: Grid, dt: real, n: int)
    ensures var h := Run(s, g, dt, n).snapshots;
            forall j | 0 <= j < |h| ::
              TotalParticleMass(h[j]) == TotalParticleMass(s.particles) &&
              TotalParticleVolume(h[j]) == TotalParticleVolume(s.particles)
  {
    var step := StepOf(g, dt);
    forall t | step(t).Ok?
      ensures SameMaterialPoints(t.particles, step(t).value.particles)
    {
      StepKeepsMaterialPoints(t, g, dt);
    }
    IterateKeepsMaterialPoints(s, step, if n > 0 then n else 0);
    var h := Run(s, g, dt, n).snapshots;
    forall j | 0 <= j < |h|
      ensures TotalParticleMass(h[j]) == TotalParticleMass(s.particles)
      ensures TotalParticleVolume(h[j]) == TotalParticleVolume(s.particles)
    {
      assert SameMaterialPoints(s.particles, h[j]);
      SameMaterialPointsSameTotals(s.particles, h[j]);
    }
  }
}
