# mini_mpm in Dafny

mini_mpm is a one-dimensional explicit Material Point Method (MPM) solver. A bar is a
`Mesh` of equal-length two-node `Element`s sharing their end `Node`s. It carries Lagrangian
material points (`Particle`s) that `Model.generate_particles` seeds evenly inside every
element. The `Model` picks a stable time step (`define_dt`) and advances the bar with the
Update-Stress-Last scheme (`step_solve`):

1. reset the nodes and the particles' velocity gradients;
2. map particle mass, momentum and internal force onto the nodes through linear tent shape
   functions;
3. integrate the nodal momenta;
4. move the particles' velocities and positions from the nodes;
5. update the particles' deformation gradient, volume, strain increment and stress.

`solve` repeats the step `number_of_steps()` times and keeps a copy of the particles after
every step.

The project has two layers.

- **Classes.** `Node`, `Particle`, `Element`, `Mesh` and `Model` are Dafny classes with the
  same fields, updated in place by methods with the same loops.
- **Values.** Every class method that takes part in a solver step is proved equal to a function
  on values. (`GenerateMesh`, `Element.Reset` and the constructors state their results
  directly.) The value layer has three parts:
  - `NodeState` and `ParticleState` hold one node or particle;
  - `Usl` holds a whole step and the solve loop, as functions on sequences of those values;
  - `Seeding` and `TimeSteps` hold the particle seeding and the time step.

  The properties of the solver are proved as lemmas about these functions.

Python's exceptions are values of `Usl.Fault`:

- an `IndexError` from an element lookup;
- a `ZeroDivisionError`;
- the `ValueError` from `max` of an empty list;
- the `ValueError` from `linspace` with a negative count.

A method that can raise returns `Option<Fault>`. The exception is
`ElementThatContainsParticle`, which returns `Result<Element, Fault>`. A method that can raise is specified by
`Outcome(fault, newState) == SpecFunction(oldState)`, so the new state is pinned down exactly
when no fault occurs, and the fault is pinned down exactly when one does.

Python numbers are modelled as exact reals. `math.floor`, `math.ceil`, `round` (ties to
even) and list indexing with negative indices are written out in module `Numeric`.

Files:

- `numeric.dfy`: Option/Result, the Python numeric built-ins, `Material`.
- `particle.dfy`, `node.dfy`, `element.dfy`, `mesh.dfy`: the grid and particle classes.
- `seeding.dfy`: the particles `generate_particles` creates.
- `timestep.dfy`: `define_dt`, `max_elastic_wave_speed`, `number_of_steps`.
- `usl.dfy`: one USL step and the solve loop on values, with the lemmas about them.
- `model.dfy`: the `Model` class.

## Model

| member | source | states |
|---|---|---|
| Numeric.Floor | model.py:55 | the result is the greatest integer not above its argument |
| Numeric.Ceil | model.py:65 | the result is the least integer not below its argument |
| Numeric.Round | model.py:70 | the result is within 1/2 of its argument, and a tie goes to the even integer |
| Numeric.RoundOfInteger | model.py:70 | rounding a whole number gives that number back |
| Numeric.PyIndex | model.py:56 | a list index is valid exactly in [-len, len); a negative one counts from the end; otherwise the lookup fails |
| Nodes.Node.constructor | node.py:12-23 | a new node is at x with the given fixity (unfixed by default) and mass, momentum and force 0 |
| Nodes.Node.SetForce | node.py:43-45 | the force setter stores 0 on a fixed node and the value otherwise, and changes nothing else |
| Nodes.Node.SetMomentum | node.py:51-53 | the momentum setter stores 0 on a fixed node and the value otherwise, and changes nothing else |
| Nodes.Node.Velocity | node.py:36-37 | velocity() times the node's mass gives back its momentum (VelocityTimesMass states the same on values) |
| Nodes.NodeState.VelocityTimesMass | node.py:36-37 | on a node with mass, velocity() times mass is the momentum |
| Nodes.Shape | node.py:55-59 | shape lies in [0, 1] for every node, position and element length (ShapeRange and PartitionOfUnity state the rest) |
| Nodes.DiffShape | node.py:61-67 | diff_shape is 0 exactly outside [x - lx, x + lx] (DiffShapeValues and DiffShapeIsSlope state its values) |
| Nodes.ShapeRange | node.py:55-59 | shape lies in [0, 1]; it is 1 on the node; it is 0 outside [x - lx, x + lx); it is positive exactly strictly inside the support |
| Nodes.PartitionOfUnity | node.py:55-59 | the shapes of nodes at a and a + lx sum to 1 everywhere on [a, a + lx] |
| Nodes.DiffShapeValues | node.py:61-67 | diff_shape is 1/lx, -1/lx or 0; it is -1/lx on the node itself; it is 0 outside [x - lx, x + lx] |
| Nodes.DiffShapeIsSlope | node.py:55-67 | on each piece of the tent, diff_shape is the exact slope of shape |
| Nodes.DiffShapeSum | node.py:61-67 | the two derivatives of an element cancel on [a, a + lx); at the right end both take the -1/lx branch and sum to -2/lx |
| Nodes.Node.MapMassFromParticle | node.py:69-75 | mass grows by shape * particle mass; no other field changes |
| Nodes.Node.MapMomentumFromParticle | node.py:77-83 | momentum grows by shape * particle momentum (through the guard); no other field changes |
| Nodes.Node.MapForceFromParticle | node.py:85-91 | force grows by -stress * current volume * diff_shape (through the guard); no other field changes |
| Nodes.Node.UpdateMomentum | node.py:93-95 | momentum becomes momentum + force * dt (0 on a fixed node); mass and force are unchanged |
| Nodes.Node.Reset | node.py:97-101 | mass, momentum and force become 0; position and fixity are kept |
| Nodes.GuardHolds | node.py:43-101 | no node update moves a node or changes its fixity; a fixed node never acquires momentum or force; reset zeroes all three |
| Nodes.ResetAll | node.py:97-101 | resetting a list of nodes zeroes every node's mass, momentum and force and keeps positions and fixity |
| Nodes.ResetIdempotent | mesh.py:64-67 | resetting twice equals resetting once, so a node shared by two elements may be reset by both |
| Particles.Particle.constructor | particle.py:17-38 | a new particle has initial and current volume equal to volume, stress 0, F = 1, velocity gradient 0 and strain increment 0 |
| Particles.Particle.Momentum | particle.py:52-54 | momentum is 0 for a particle at rest, and momentum / mass gives back the velocity for a particle with mass |
| Particles.Particle.UpdateDeformationGradient | particle.py:56-58 | F is multiplied by 1 + L * dt; nothing else changes |
| Particles.RestIdentity | particle.py:56-66 | with L = 0 the F update changes nothing; an undeformed particle's volume update gives back its initial volume |
| Particles.Particle.UpdateVelocityGradient | particle.py:60-62 | L grows by diff_shape * node velocity; nothing else changes |
| Particles.Particle.UpdateVolume | particle.py:64-66 | afterwards current volume == F * initial volume; nothing else changes |
| Particles.Particle.UpdateStress | particle.py:68-70 | stress grows by young * strain increment; nothing else changes |
| Particles.Particle.UpdateStrainIncrement | particle.py:72-74 | strain increment becomes L * dt; nothing else changes |
| Particles.StrainThenStress | particle.py:68-74 | a strain-increment update followed by a stress update adds exactly young * L * dt to the stress |
| Particles.Particle.UpdateVelocityFromNode | particle.py:76-78 | for a node with mass, velocity grows by dt * shape * force / mass; nothing else changes |
| Particles.Particle.UpdatePositionFromNode | particle.py:80-82 | for a node with mass, x grows by dt * shape * momentum / mass; nothing else changes |
| Particles.Particle.Reset | particle.py:84-86 | the velocity gradient becomes 0; nothing else changes |
| Elements.Element.constructor | element.py:12-23 | an element keeps its node list (the node objects themselves); its mass is rho * volume; volume defaults to 1 |
| Elements.Element.XIni | element.py:25-27 | x_ini is the position of the element's first node; Length relates it to x_final and Meshes.Mesh.ElementGeometry places it at k * h in a generated mesh |
| Elements.Element.XFinal | element.py:29-31 | x_final is the position of the element's second node; Length relates it to x_ini |
| Elements.Element.Length | element.py:25-34 | x_ini + length == x_final, where x_ini is the first node's x and x_final the second's |
| Elements.Element.Reset | element.py:36-39 | every node the element refers to is reset, and only those nodes |
| Meshes.Mesh.constructor | mesh.py:14-26 | a new mesh has the given bounds and element count, and no nodes or elements |
| Meshes.Mesh.Length | mesh.py:35-37 | x_ini + length == x_final |
| Meshes.Mesh.ElementsLength | mesh.py:39-41 | elements_length * num_els == length |
| Meshes.Mesh.GenerateMesh | mesh.py:43-62 | on an empty mesh: num_els + 1 new, distinct, unfixed, zeroed nodes, node j at j * elements_length counted from 0 (not from x_ini); num_els new elements, element k joining the node objects k and k + 1, with the given material, volume 1 and mass rho * 1 |
| Meshes.Mesh.AppendElement | mesh.py:53-62 | one pass of the loop: a new node one element length beyond the last node, and a new element joining the two, with the given material, volume 1 and mass rho |
| Meshes.Mesh.Reset | mesh.py:64-67 | every node some element refers to is reset and no other node changes; on a chain, the mesh's node values are exactly the reset values |
| Meshes.Mesh.SharedNode | mesh.py:53-62 | adjacent elements refer to the same node object at their common end |
| Meshes.Mesh.ElementGeometry | mesh.py:49-62 | in a generated mesh element k spans [k * h, (k + 1) * h] and has length h |
| Meshes.Mesh.ChainIsLinked | mesh.py:53-62 | every node an element of a chain refers to is a node of the mesh |
| Seeding.Seed | model.py:43-46 | a seed starts at rest, with the element's material and with its current volume equal to its initial volume (SeedAtRest and SeedSpacing state the rest) |
| Seeding.SeedCell | model.py:42-47 | an element yields exactly n seeds, each at rest with the element's material |
| Seeding.Seeds | model.py:37-48 | the elements yield num_els * n seeds in total (SeedsLayout states their order) |
| Seeding.SeedSpacing | model.py:40-43 | the seeds of an element are one gap length / (n + 1) apart, with one gap to each end, so each lies strictly inside the element |
| Seeding.SeedAtRest | model.py:43-46 | every seed starts at rest, unstressed and undeformed, with the element's material and 1/n of its mass and volume |
| Seeding.SeedCellTotals | model.py:42-46 | the n seeds of an element carry exactly its mass and its volume |
| Seeding.SeedsTotals | model.py:39-48 | all seeds carry exactly the mesh's total mass and volume; with n = 0 there are none |
| Seeding.SeedsLayout | model.py:39-48 | there are num_els * n seeds; block k of n consecutive particles is element k's seeds, left to right |
| Seeding.SeedsInside | model.py:39-56 | on a mesh generated with x_ini = 0, every seed is inside the element the lookup finds for it |
| Seeding.UniformCellsMass | model.py:39 | elements that all weigh m weigh num_els * m together |
| Seeding.UniformSeedsMass | model.py:37-48 | the seeds of elements that all weigh m weigh num_els * m together |
| Seeding.SeededMassReachesNodes | model.py:74-81 | on such a mesh the first mapping phase succeeds and the node masses add up to the elements' masses |
| TimeSteps.MaxOf | model.py:58-60 | max of a non-empty list is an element of it and no element exceeds it |
| TimeSteps.StableDt | model.py:58-64 | 0.1 * h / max wave speed is computed exactly when there is an element, a wave speed and a non-zero maximum; no element is ZeroDivisionError, no wave speed is the ValueError of max |
| TimeSteps.DefineDt | model.py:62-66 | define_dt succeeds only if the stable step does and the total time is non-zero; it raises whatever the stable step raises |
| TimeSteps.NumberOfSteps | model.py:68-70 | the step count is within 1/2 of total_time / dt |
| TimeSteps.DefineDtStable | model.py:62-70 | for positive total time, element length and wave speed: dt0 > 0; n = ceil(total / dt0) >= 1; 0 < dt <= dt0; n * dt == total; number_of_steps() == n |
| TimeSteps.DefinedDtSteps | model.py:62-70 | a dt that define_dt produced is positive, and number_of_steps() >= 1 steps of it make up the total time |
| TimeSteps.DefineDtZeroTime | model.py:62-66 | with a total time of 0, define_dt raises ZeroDivisionError |
| Usl.Locate | model.py:50-56 | the element lookup fails with ZeroDivisionError exactly when h == 0; any index it yields is a valid one |
| Usl.LocateInside | model.py:55-56 | a position in [x_ini + k*h, x_ini + (k+1)*h) with 0 <= k < num_els is located in element k |
| Usl.LocateLeftOfDomain | model.py:55-56 | a position less than one element left of x_ini is located in the last element (index -1) |
| Usl.LocateOutside | model.py:55-56 | at or beyond the right end, or more than num_els elements to the left, the lookup raises IndexError |
| Usl.ResetParticles | model.py:126-131 | the reset sets every particle's velocity gradient to 0 and changes nothing else |
| Usl.MapOnto | model.py:78-81 | mapping a particle onto a node fails exactly when the element has length 0 and the particle is on the node; otherwise the node gains shape * particle mass and is not moved |
| Usl.MapToNodes | model.py:78-81 | the loop over an element's nodes keeps the grid's positions and fixity |
| Usl.MapParticle | model.py:76-81 | one iteration of the mapping loop keeps the grid's positions and fixity |
| Usl.MapAll | model.py:76-81 | the mapping loop keeps the grid's positions and fixity |
| Usl.UpdateMomenta | model.py:84-85 | every node's momentum becomes momentum + force * dt (0 if fixed); masses, forces and the grid are kept |
| Usl.AdvanceFromNode | model.py:91-100 | the update from one node fails exactly for a massless node; otherwise only velocity and x change |
| Usl.AdvanceOverNodes | model.py:91-100 | the loop over an element's nodes changes only velocity and x |
| Usl.Advance | model.py:88-100 | the velocity/position update of one particle changes only its velocity and x |
| Usl.AdvanceAll | model.py:88-100 | the velocity/position loop keeps every particle's mass, initial volume and material |
| Usl.GradientFromNode | model.py:106-108 | the gradient contribution of a node fails exactly when diff_shape or velocity() divides by zero; otherwise only L changes |
| Usl.GradientOverNodes | model.py:106-108 | the gradient loop over an element's nodes changes only L |
| Usl.UpdateStress | model.py:103-113 | the stress update keeps mass, initial volume, material, x and velocity, and leaves current volume == F * initial volume |
| Usl.UpdateStressEffect | model.py:103-113 | with the gathered gradient L, F is multiplied by 1 + L * dt and the stress grows by young * L * dt |
| Usl.StressAll | model.py:103-113 | the stress loop keeps mass, initial volume and material, and leaves every volume consistent with F |
| Usl.MapAllKeepsFault | model.py:76-81 | once the mapping loop has raised on a prefix of the particles, the whole loop raises the same fault |
| Usl.AdvanceAllKeepsFault | model.py:88-100 | the same for the velocity/position loop |
| Usl.StressAllKeepsFault | model.py:103-113 | the same for the stress loop |
| Usl.AdvanceAllPointwise | model.py:88-100 | the velocity/position loop succeeds iff every particle's update does, and then particle i is its own update |
| Usl.AdvanceAllFirstFault | model.py:88-100 | a fault of the velocity/position loop is the fault of the first particle that fails |
| Usl.StressAllPointwise | model.py:103-113 | the stress loop succeeds iff every particle's update does, and then particle i is its own update |
| Usl.StressAllFirstFault | model.py:103-113 | a fault of the stress loop is the fault of the first particle that fails |
| Usl.MapAllKeepsFixedAtRest | model.py:76-81 | mapping never gives a fixed node momentum or force |
| Usl.MapOntoElementMass | model.py:78-79 | the two end nodes of an element holding the particle receive its whole mass between them |
| Usl.MapParticleMass | model.py:76-81 | a particle inside its located element adds exactly its mass to the total node mass |
| Usl.MapAllAddsMass | model.py:76-81 | with every particle inside its located element, mapping succeeds and adds the total particle mass to the node mass |
| Usl.MappedMassIsParticleMass | model.py:74-81 | after reset and mapping, the sum of node masses equals the sum of particle masses |
| Usl.InsideAnchoredDomain | model.py:55 | when x_ini is 0, every point of [0, num_els * h) lies inside the element it is located in |
| Usl.LoneParticleOnNode | model.py:78-80 | a particle on an empty unfixed node gives that node its own mass and velocity |
| Usl.ShiftedDomainLosesMass | model.py:55 | with x_ini = 1, h = 1 and massless nodes at 0, 1 and 2, any particle at 0.5 (where the seeding puts element 0's seed) is located in the last element, and only half its mass reaches the nodes |
| Usl.GridUpdate | model.py:72-85 | the grid phase of a step keeps node positions and fixity, and leaves the particles as the reset made them |
| Usl.ParticleUpdate | model.py:87-113 | the particle phase of a step leaves the nodes alone and keeps every particle's mass, initial volume and material |
| Usl.Step | model.py:72-113 | a successful step keeps node positions and fixity and every particle's mass, initial volume and material |
| Usl.Run | model.py:115-122 | solve makes at most max(n, 0) snapshots, and exactly n iff n >= 0 and no step faulted; a negative n is the ValueError of linspace |
| Usl.StepKeepsMaterialPoints | model.py:72-113 | a step keeps node positions and fixity and every particle's mass, initial volume and material, and leaves each volume == F * V0 |
| Usl.StepLeavesFixedNodesAtRest | model.py:72-113 | whatever the state before, every fixed node ends a step with momentum 0 and force 0 |
| Usl.Iterate | model.py:119-122 | a run of n steps has at most n snapshots, and exactly n iff no step faulted |
| Usl.IterateHaltsAtFault | model.py:119-122 | after a fault the run stops: more steps change nothing |
| Usl.IterateExtends | model.py:119-122 | later steps never alter earlier snapshots: a shorter run's history is a prefix of a longer one's |
| Usl.IterateKeepsMaterialPoints | model.py:119-122 | if a step keeps the material points, so does every snapshot of a run |
| Usl.RunConservesMass | model.py:115-122 | every snapshot of a solve has the initial total particle mass and volume |
| Models.Model.TimedSteps | model.py:62-70 | a model's dt is positive and gives at least one step |
| Models.Model.constructor | model.py:17-35 | the new model's dt is what define_dt computes; its particles are exactly the seeds of the mesh's elements, all new objects; its result history is empty |
| Models.Model.DefineDt | model.py:62-66 | dt becomes total / ceil(total / (0.1 * h / max wave speed)); particles and result are kept |
| Models.Model.NumberOfSteps | model.py:68-70 | the result is round(total_time / dt) |
| Models.Model.AddParticle | model.py:43-48 | one new particle object, at rest, is appended; the earlier particles are kept |
| Models.Model.AddSeeds | model.py:40-48 | the seeds of one element are appended, in order |
| Models.Model.GenerateParticles | model.py:37-48 | the seeds of every element are appended, element by element in mesh order, as new distinct objects |
| Models.Model.ElementThatContainsParticle | model.py:50-56 | the lookup returns elements[floor((x - x_ini) / h)] with Python's negative indexing; otherwise it raises IndexError, or ZeroDivisionError for h == 0 |
| Models.Model.Reset | model.py:126-131 | every node of the mesh and every particle is reset |
| Models.Model.MapParticleOntoNode | model.py:78-81 | the three mapping calls on one node give the value MapOnto describes, or its fault; no other node changes |
| Models.Model.MapParticleOntoElement | model.py:78-81 | the inner mapping loop computes MapToNodes over the element's two nodes |
| Models.Model.MapOne | model.py:76-81 | one iteration of the mapping loop computes MapParticle, or raises its fault |
| Models.Model.MapParticles | model.py:76-81 | the mapping loop computes MapAll and leaves the particles unchanged |
| Models.Model.UpdateNodalMomenta | model.py:84-85 | the nodes become UpdateMomenta of the old nodes; the particles are unchanged |
| Models.Model.AdvanceParticle | model.py:91-100 | the inner velocity/position loop computes AdvanceOverNodes, moving x between the two nodes |
| Models.Model.AdvanceOne | model.py:88-100 | one iteration of the velocity/position loop computes Advance |
| Models.Model.AdvanceParticles | model.py:88-100 | the velocity/position loop computes AdvanceAll |
| Models.Model.StressParticle | model.py:106-113 | the gradient loop computes GradientOverNodes, then F, volume, strain increment and stress are updated in that order |
| Models.Model.StressOne | model.py:103-113 | one iteration of the stress loop, relocated from the moved x, computes UpdateStress |
| Models.Model.UpdateStresses | model.py:103-113 | the stress loop computes StressAll |
| Models.Model.UpdateGrid | model.py:74-85 | reset, mapping and momentum update together compute GridUpdate |
| Models.Model.UpdateParticles | model.py:88-113 | the velocity/position and stress loops together compute ParticleUpdate |
| Models.Model.StepSolve | model.py:72-113 | step_solve computes Step on the model's state, or raises its fault; mesh, dt and the particle list are kept |
| Models.Model.SolveStep | model.py:119-122 | one iteration of solve takes the state and history from run step i to run step i + 1 |
| Models.Model.RunSteps | model.py:119-122 | the solve loop's final state, snapshots and fault are those of Iterate over n steps |
| Models.Model.Solve | model.py:115-135 | result grows by exactly the snapshots of Run over number_of_steps() steps (one per step, so number_of_steps() of them when nothing faults); the final state is Run's |
| Models.Model.CellsOnGrid | model.py:39-40 | in a generated mesh, the element seen by the seeding loop spans [k * h, (k + 1) * h] |
| Models.Model.SeededMassOfUniformMesh | model.py:37-48 | when every element weighs rho, as generate_mesh makes them, the seeded particles weigh num_els * rho together |
| Models.Model.FirstStepMapsAllMass | model.py:74-81 | with x_ini = 0, the first step's mapping phase succeeds and gives the nodes the mass of every element |

## Left out

- plot.py, example_1.py and example_2.py (plotting and driver scripts), and every `__str__` method.
- The progress `print` in `solve` and the values `np.linspace` produces. Only their count, `number_of_steps()`, matters; a negative count is the `ValueError` that `linspace` raises.
- `material.elastic_wave_speed` (a square root). `Model` takes the per-element wave speeds as a constructor argument, and the constructor requires each to satisfy `c >= 0 && c * c == young / rho`. `max_elastic_wave_speed` is `MaxOf` of that list.
- IEEE-754 rounding. All quantities are exact reals, so `n * dt == total` holds exactly in the model. Python's `/` on floats is real division here.
- `deepcopy` in `solve` is modelled as a value snapshot of the particles (a `seq<ParticleState>`). No object graph is copied, so later steps cannot alias a snapshot.
- The particle field `strain` is set by the constructor and never read or written again. The field `force` is also set only by the constructor, and only `__str__` reads it; `__str__` is left out. Neither field is modelled.
- Models.Model.constructor: requires a sufficient subset of the conditions under which `define_dt` succeeds: a mesh built by one `generate_mesh` call with at least one element, positive length, positive total time and a positive maximum wave speed. Outside that subset:
  - a zero total time, no element or no wave speed makes `define_dt` raise; `TimeSteps.DefineDt` and `TimeSteps.StableDt` model those faults as values (`DefineDtZeroTime`);
  - a negative total time t <= -dt0 gives a negative step count and a positive dt (for example dt0 = 0.1 and t = -1 give n = -10 and dt = 0.1), so Python builds the model and `solve` then raises the `ValueError` of `linspace` (model.py:135); that fault is modelled only by `Usl.Run` (`NegativeStepCount`), not reachable from the class;
  - a mesh on which `generate_mesh` ran twice also gives a positive dt; it is not modelled.
- Models.Model.DefineDt: requires that the value-level `DefineDt` succeeds, so the method itself never raises.
- Models.Model.Solve: requires `dt != 0`, which every constructed model satisfies. The state the mesh and particles are left in after a faulting step is not specified; Python leaves it half-updated too.
- Models.Model.StepSolve: after a fault only the fault is specified, not the half-updated state.
- Meshes.Mesh.GenerateMesh: requires an empty mesh. Calling it twice (appending a second chain) is not modelled.
- Meshes.Mesh.ElementsLength: requires `num_els != 0`. The ZeroDivisionError of an empty mesh is modelled where the lookup uses the length (`Usl.Locate`, `Models.Model.ElementThatContainsParticle`).
- Nodes.DiffShape and Nodes.Node.MapForceFromParticle: require `lx != 0 || xp != x`. The ZeroDivisionError that `diff_shape` raises for `lx == 0` with the particle on the node is modelled only as the fault of `Usl.MapOnto` and `Usl.GradientFromNode`. Inside `step_solve` a zero element length makes the lookup's `floor((x - x_ini) / 0)` raise first (model.py:55).
- Elements.Element.Length, Elements.Element.XIni and Elements.Element.XFinal: require two nodes (one for `XIni`). Python raises IndexError on a shorter node list; every element `generate_mesh` builds has two nodes, so no call in the source reaches that error.
- Nodes.Node.Velocity and Particles.Particle.UpdateVelocityFromNode/UpdatePositionFromNode: require a non-zero node mass. Inside `step_solve` the ZeroDivisionError of a massless node is modelled as a fault (`Usl.AdvanceFromNode`, `Usl.GradientFromNode`).
- Models.Model.constructor: `num_particles_per_el` is a natural number; negative counts are not modelled. A count of -1 makes `generate_particles` raise ZeroDivisionError at `el.length() / 0` (model.py:40); a count of -2 or less seeds no particles, since `range` of a negative number is empty. The `material=None` defaults of `Particle` and `Element` are not modelled either: a material is always given.
- `Model` keeps the mesh, the particle count, the total time and the wave speeds constant; Python could reassign those attributes from outside.
- The disagreement between `generate_mesh` (first node at 0) and the element lookup (counting from `x_ini`) is modelled as written. `Usl.ShiftedDomainLosesMass` shows a seed landing in the wrong element when `x_ini != 0`. The mass lemmas are stated for `x_ini == 0`.
