/**
 * node.py: a grid node. Shape and DiffShape are the linear tent basis function of a node
 * and its derivative; NodeState is the value of a node and its member functions are the
 * updates the Node methods perform in place, all writes to momentum and force passing
 * through the fixed-node guard.
 */
module Nodes {
  import opened Numeric
  import opened Particles

  /** Tent function of the node at xn, half-width lx, evaluated at xp. */
  function Shape(xn: real, xp: real, lx: real): (r: real)
    ensures 0.0 <= r <= 1.0
  {
    if xn - lx <= xp < xn + lx then 1.0 - Abs(xp - xn) / lx else 0.0
  }

  /** The tent function lies in [0, 1], is 1 on its node and positive exactly strictly inside its support. */
  lemma ShapeRange(xn: real, xp: real, lx: real)
    ensures 0.0 <= Shape(xn, xp, lx) <= 1.0
    ensures lx > 0.0 && xp == xn ==> Shape(xn, xp, lx) == 1.0
    ensures !(xn - lx <= xp < xn + lx) ==> Shape(xn, xp, lx) == 0.0
    ensures Shape(xn, xp, lx) > 0.0 <==> xn - lx < xp < xn + lx
  {
  }

  /**
   * Derivative of the tent function: 1/lx on [xn - lx, xn), -1/lx on [xn, xn + lx].
   * The -1/lx branch divides by zero exactly when lx == 0 and xp == xn.
   */
  function DiffShape(xn: real, xp: real, lx: real): (r: real)
    requires lx != 0.0 || xp != xn
    ensures r == 0.0 <==> !(xn - lx <= xp <= xn + lx)
  {
    if xn - lx <= xp < xn then 1.0 / lx
    else if xn <= xp <= xn + lx then -1.0 / lx
    else 0.0
  }

  /** The derivative is 1/lx, -1/lx (on the node itself) or 0 (outside the support). */
  lemma DiffShapeValues(xn: real, xp: real, lx: real)
    requires lx != 0.0 || xp != xn
    ensures lx > 0.0 && xp == xn ==> DiffShape(xn, xp, lx) * lx == -1.0
    ensures !(xn - lx <= xp <= xn + lx) ==> DiffShape(xn, xp, lx) == 0.0
    ensures lx > 0.0 ==> DiffShape(xn, xp, lx) * lx == 1.0 || DiffShape(xn, xp, lx) * lx == -1.0 || DiffShape(xn, xp, lx) == 0.0
  {
  }

  /** The two tent functions of an element's end nodes sum to one on the element. */
  lemma PartitionOfUnity(a: real, lx: real, xp: real)
    requires lx > 0.0 && a <= xp <= a + lx
    ensures Shape(a, xp, lx) + Shape(a + lx, xp, lx) == 1.0
  {
    ShapeRight(a, xp, lx);
    ShapeLeft(a + lx, xp, lx);
    assert (xp - a) / lx + (a + lx - xp) / lx == lx / lx;
  }

  lemma QuotientDifference(a: real, b: real, lx: real)
    requires lx != 0.0
    ensures a / lx - b / lx == (a - b) / lx
    ensures (1.0 / lx) * (a - b) == (a - b) / lx
    ensures (-1.0 / lx) * (a - b) == -((a - b) / lx)
  {
  }

  /** On the rising side of the tent, Shape is 1 minus the scaled distance to the node. */
  lemma ShapeLeft(xn: real, x: real, lx: real)
    requires lx > 0.0 && xn - lx <= x <= xn
    ensures Shape(xn, x, lx) == 1.0 - (xn - x) / lx
  {
  }

  /** On the falling side, up to and including the far end where it reaches 0. */
  lemma ShapeRight(xn: real, x: real, lx: real)
    requires lx > 0.0 && xn <= x <= xn + lx
    ensures Shape(xn, x, lx) == 1.0 - (x - xn) / lx
  {
    if x == xn + lx {
      assert (x - xn) / lx == 1.0;
    }
  }

  lemma PieceDifference(c: real, d: real, lx: real)
    requires lx != 0.0
    ensures (1.0 - c / lx) - (1.0 - d / lx) == (1.0 / lx) * (d - c)
  {
    QuotientDifference(d, c, lx);
  }

  /** DiffShape is the slope of Shape on each of its two pieces. */
  lemma DiffShapeIsSlope(xn: real, lx: real, xp: real, xq: real)
    requires lx > 0.0
    requires (xn - lx <= xp < xq <= xn) || (xn <= xp < xq <= xn + lx)
    ensures Shape(xn, xq, lx) - Shape(xn, xp, lx) == DiffShape(xn, xp, lx) * (xq - xp)
  {
    if xp < xn {
      ShapeLeft(xn, xq, lx);
      ShapeLeft(xn, xp, lx);
      PieceDifference(xn - xq, xn - xp, lx);
      assert (xn - xp) - (xn - xq) == xq - xp;
      assert DiffShape(xn, xp, lx) == 1.0 / lx;
    } else {
      ShapeRight(xn, xq, lx);
      ShapeRight(xn, xp, lx);
      PieceDifference(xq - xn, xp - xn, lx);
      assert (xp - xn) - (xq - xn) == -(xq - xp);
      assert DiffShape(xn, xp, lx) == -1.0 / lx;
      assert (1.0 / lx) * -(xq - xp) == (-1.0 / lx) * (xq - xp);
    }
  }

  /**
   * The derivatives of an element's two tent functions cancel on [a, a + lx); at the
   * element's right end both take the -1/lx branch and the sum is -2/lx.
   */
  lemma DiffShapeSum(a: real, lx: real, xp: real)
    requires lx > 0.0 && a <= xp <= a + lx
    ensures xp < a + lx ==> DiffShape(a, xp, lx) + DiffShape(a + lx, xp, lx) == 0.0
    ensures xp == a + lx ==> (DiffShape(a, xp, lx) + DiffShape(a + lx, xp, lx)) * lx == -2.0
  {
  }

  datatype NodeState = NodeState(x: real, isFixed: bool, mass: real, momentum: real, force: real)
  {
    /** What the write guard stores: 0 on a fixed node, the value otherwise. */
    function Guarded(value: real): (r: real) {
      if isFixed then 0.0 else value
    }

    function WithForce(value: real): (r: NodeState) {
      this.(force := Guarded(value))
    }

    function WithMomentum(value: real): (r: NodeState) {
      this.(momentum := Guarded(value))
    }

    function Velocity(): (r: real)
      requires mass != 0.0
    {
      momentum / mass
    }

    /** Velocity times mass gives back the momentum. */
    lemma VelocityTimesMass()
      requires mass != 0.0
      ensures Velocity() * mass == momentum
    {
    }

    function MassMapped(p: ParticleState, lx: real): (r: NodeState) {
      this.(mass := mass + Shape(x, p.x, lx) * p.mass)
    }

    function MomentumMapped(p: ParticleState, lx: real): (r: NodeState) {
      WithMomentum(momentum + Shape(x, p.x, lx) * p.Momentum())
    }

    function ForceMapped(p: ParticleState, lx: real): (r: NodeState)
      requires lx != 0.0 || p.x != x
    {
      WithForce(force + -p.stress * p.currentVolume * DiffShape(x, p.x, lx))
    }

    function MomentumUpdated(dt: real): (r: NodeState) {
      WithMomentum(momentum + force * dt)
    }

    function Reset(): (r: NodeState) {
      WithMomentum(0.0).(mass := 0.0).WithForce(0.0)
    }
  }

  /** Every node update keeps the position and the fixity, and a fixed node never holds momentum or force. */
  lemma GuardHolds(s: NodeState, p: ParticleState, lx: real, dt: real)
    requires lx != 0.0 || p.x != s.x
    ensures var all := [s.Reset(), s.MassMapped(p, lx), s.MomentumMapped(p, lx),
                        s.ForceMapped(p, lx), s.MomentumUpdated(dt)];
            forall t | t in all :: t.x == s.x && t.isFixed == s.isFixed
    ensures s.isFixed ==>
              s.MomentumMapped(p, lx).momentum == 0.0 && s.ForceMapped(p, lx).force == 0.0 &&
              s.MomentumUpdated(dt).momentum == 0.0
    ensures s.Reset().mass == s.Reset().momentum == s.Reset().force == 0.0
  {
  }

  /** Reset of every node of a grid: zero mass, momentum and force, and nothing else changes. */
  function ResetAll(ns: seq<NodeState>): (r: seq<NodeState>)
    ensures |r| == |ns|
    ensures forall i | 0 <= i < |ns| ::
              r[i].mass == 0.0 && r[i].momentum == 0.0 && r[i].force == 0.0 &&
              r[i].x == ns[i].x && r[i].isFixed == ns[i].isFixed
  {
    seq(|ns|, i requires 0 <= i < |ns| => ns[i].Reset())
  }

  /** Resetting twice is resetting once, so a node shared by two elements may be reset by both. */
  lemma ResetIdempotent(ns: seq<NodeState>)
    ensures ResetAll(ResetAll(ns)) == ResetAll(ns)
  {
  }

  class Node {
    const x: real
    var isFixed: bool
    var mass: real
    var momentum: real
    var force: real

    function State(): (r: NodeState)
      reads this
    {
      NodeState(x, isFixed, mass, momentum, force)
    }

    constructor(x: real, isFixed: bool := false)
      ensures State() == NodeState(x, isFixed, 0.0, 0.0, 0.0)
    {
      this.x := x;
      this.isFixed := isFixed;
      mass := 0.0;
      force := 0.0;
      momentum := 0.0;
    }

    /** velocity(): the speed that, times the node's mass, gives back its momentum. */
    function Velocity(): (r: real)
      reads this
      requires mass != 0.0
      ensures r * mass == momentum
    {
      State().Velocity()
    }

    method SetForce(value: real)
      modifies this
      ensures State() == old(State()).WithForce(value)
      ensures force == if isFixed then 0.0 else value
    {
      force := if isFixed then 0.0 else value;
    }

    method SetMomentum(value: real)
      modifies this
      ensures State() == old(State()).WithMomentum(value)
      ensures momentum == if isFixed then 0.0 else value
    {
      momentum := if isFixed then 0.0 else value;
    }

    method MapMassFromParticle(p: Particle, lx: real)
      modifies this
      ensures State() == old(State()).MassMapped(p.State(), lx)
    {
      mass := mass + Shape(x, p.x, lx) * p.mass;
    }

    method MapMomentumFromParticle(p: Particle, lx: real)
      modifies this
      ensures State() == old(State()).MomentumMapped(p.State(), lx)
    {
      SetMomentum(momentum + Shape(x, p.x, lx) * p.Momentum());
    }

    method MapForceFromParticle(p: Particle, lx: real)
      requires lx != 0.0 || p.x != x
      modifies this
      ensures State() == old(State()).ForceMapped(p.State(), lx)
    {
      SetForce(force + -p.stress * p.currentVolume * DiffShape(x, p.x, lx));
    }

    method UpdateMomentum(dt: real)
      modifies this
      ensures State() == old(State()).MomentumUpdated(dt)
    {
      SetMomentum(momentum + force * dt);
    }

    method Reset()
      modifies this
      ensures State() == old(State()).Reset()
      ensures mass == momentum == force == 0.0
    {
      SetMomentum(0.0);
      mass := 0.0;
      SetForce(0.0);
    }
  }
}
