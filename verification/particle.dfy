/**
 * particle.py: a Lagrangian material point. ParticleState is the value of a particle
 * (also what a history snapshot stores); its member functions are the updates that
 * the Particle methods perform in place.
 */
module Particles {
  import opened Materials

  datatype ParticleState = ParticleState(
    x: real,
    velocity: real,
    mass: real,
    initialVolume: real,
    currentVolume: real,
    material: Material,
    stress: real,
    velocityGradient: real,
    deformationGradient: real,
    strainIncrement: real)
  {
    function Momentum(): (r: real) { mass * velocity }

    function DeformationGradientUpdated(dt: real): (r: ParticleState) {
      this.(deformationGradient := deformationGradient * (1.0 + velocityGradient * dt))
    }

    function VelocityGradientAdded(nodeDiffShape: real, nodeVelocity: real): (r: ParticleState) {
      this.(velocityGradient := velocityGradient + nodeDiffShape * nodeVelocity)
    }

    function VolumeUpdated(): (r: ParticleState) {
      this.(currentVolume := deformationGradient * initialVolume)
    }

    function StressUpdated(): (r: ParticleState) {
      this.(stress := stress + material.young * strainIncrement)
    }

    function StrainIncrementUpdated(dt: real): (r: ParticleState) {
      this.(strainIncrement := velocityGradient * dt)
    }

    function VelocityFromNode(nodeShape: real, nodeForce: real, nodeMass: real, dt: real): (r: ParticleState)
      requires nodeMass != 0.0
    {
      this.(velocity := velocity + dt * nodeShape * nodeForce / nodeMass)
    }

    function PositionFromNode(nodeShape: real, nodeMomentum: real, nodeMass: real, dt: real): (r: ParticleState)
      requires nodeMass != 0.0
    {
      this.(x := x + dt * nodeShape * nodeMomentum / nodeMass)
    }

    /** The current volume is the deformation gradient times the initial volume. */
    predicate VolumeConsistent() {
      currentVolume == deformationGradient * initialVolume
    }

    function Reset(): (r: ParticleState) {
      this.(velocityGradient := 0.0)
    }
  }

  /** The state the constructor gives a particle. */
  function Fresh(x: real, velocity: real, mass: real, volume: real, material: Material): (r: ParticleState) {
    ParticleState(x, velocity, mass, volume, volume, material, 0.0, 0.0, 1.0, 0.0)
  }

  /** A strain increment followed by a stress update adds exactly young * L * dt to the stress. */
  lemma StrainThenStress(p: ParticleState, dt: real)
    ensures p.StrainIncrementUpdated(dt).StressUpdated().stress
         == p.stress + p.material.young * p.velocityGradient * dt
  {
  }

  /** At rest (L = 0) the deformation gradient is unchanged, and a fresh particle keeps its volume. */
  lemma RestIdentity(p: ParticleState, dt: real)
    requires p.velocityGradient == 0.0
    ensures p.DeformationGradientUpdated(dt) == p
    ensures p.deformationGradient == 1.0 ==> p.VolumeUpdated().currentVolume == p.initialVolume
  {
  }

  /**
   * A material point. Mass, initial volume and material are never written after
   * construction, so they are constant fields.
   */
  class Particle {
    var x: real
    var velocity: real
    const mass: real
    const initialVolume: real
    var currentVolume: real
    const material: Material
    var stress: real
    var velocityGradient: real
    var deformationGradient: real
    var strainIncrement: real

    function State(): (r: ParticleState)
      reads this
    {
      ParticleState(x, velocity, mass, initialVolume, currentVolume, material,
                    stress, velocityGradient, deformationGradient, strainIncrement)
    }

    constructor(x: real, velocity: real := 0.0, mass: real := 0.0, volume: real := 0.0, material: Material)
      ensures State() == Fresh(x, velocity, mass, volume, material)
      ensures initialVolume == currentVolume == volume
      ensures stress == 0.0 && deformationGradient == 1.0
      ensures velocityGradient == 0.0 && strainIncrement == 0.0
    {
      this.x := x;
      this.velocity := velocity;
      this.mass := mass;
      this.initialVolume := volume;
      this.currentVolume := volume;
      this.material := material;
      this.stress := 0.0;
      this.velocityGradient := 0.0;
      this.deformationGradient := 1.0;
      this.strainIncrement := 0.0;
    }

    /** Momentum is mass times velocity: 0 at rest, and velocity again once divided by a non-zero mass. */
    function Momentum(): (r: real)
      reads this
      ensures velocity == 0.0 ==> r == 0.0
      ensures mass != 0.0 ==> r / mass == velocity
    {
      State().Momentum()
    }

    method UpdateDeformationGradient(dt: real)
      modifies this
      ensures State() == old(State()).DeformationGradientUpdated(dt)
    {
      deformationGradient := deformationGradient * (1.0 + velocityGradient * dt);
    }

    method UpdateVelocityGradient(nodeDiffShape: real, nodeVelocity: real)
      modifies this
      ensures State() == old(State()).VelocityGradientAdded(nodeDiffShape, nodeVelocity)
    {
      velocityGradient := velocityGradient + nodeDiffShape * nodeVelocity;
    }

    method UpdateVolume()
      modifies this
      ensures State() == old(State()).VolumeUpdated()
      ensures currentVolume == deformationGradient * initialVolume
    {
      currentVolume := deformationGradient * initialVolume;
    }

    method UpdateStress()
      modifies this
      ensures State() == old(State()).StressUpdated()
    {
      stress := stress + material.young * strainIncrement;
    }

    method UpdateStrainIncrement(dt: real)
      modifies this
      ensures State() == old(State()).StrainIncrementUpdated(dt)
    {
      strainIncrement := velocityGradient * dt;
    }

    method UpdateVelocityFromNode(nodeShape: real, nodeForce: real, nodeMass: real, dt: real)
      requires nodeMass != 0.0
      modifies this
      ensures State() == old(State()).VelocityFromNode(nodeShape, nodeForce, nodeMass, dt)
    {
      velocity := velocity + dt * nodeShape * nodeForce / nodeMass;
    }

    method UpdatePositionFromNode(nodeShape: real, nodeMomentum: real, nodeMass: real, dt: real)
      requires nodeMass != 0.0
      modifies this
      ensures State() == old(State()).PositionFromNode(nodeShape, nodeMomentum, nodeMass, dt)
    {
      x := x + dt * nodeShape * nodeMomentum / nodeMass;
    }

    method Reset()
      modifies this
      ensures State() == old(State()).Reset()
    {
      velocityGradient := 0.0;
    }
  }
}
