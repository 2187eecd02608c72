# orbital: the N-body core in Dafny

This project models the physics core of *orbital*, a small 2-D N-body gravity
toy written in Go. A `Game` holds a list of bodies. It also holds a list of
"unique pairs", one per unordered pair of bodies. Each mouse click appends a
body and pairs it with every body already present. Each frame runs three phases:

1. zero every body's force;
2. call `ApplyGravity` once per pair, adding a force to the first body and its
   exact negation to the second (Newton's third law);
3. call `Update` on every body (semi-implicit Euler: `v += F`, then `p += v`).

The model is functional:

- Bodies are an immutable `Body` datatype over `real`.
- The body list is a `seq<Body>`.
- The Go pointers in a pair become indices into that sequence, `Pair(a, b)`.
- `AddBody` and `Step` are pure functions.
- Each loop of the source is also written as a method with invariants and
  proved equal to its function.

Modules:

- `Bodies` (`bodies.dfy`) covers package `body`: `Body`, `NewBody`, `Center`,
  `PointDistanceXY`, the squared distance, `getatobDiff`, `ApplyGravity` and
  `Update`.
- `Pairs` (`pairs.dfy`) holds the pair bookkeeping: the pairs one click adds,
  the well-formedness invariant of the pair list, and triangular numbers.
- `Interactions` (`interactions.dfy`) covers the accumulation loop. It defines
  `ApplyGravity` applied at a pair of indices, the loop over the pair list, and
  an independent reference for its result. That reference is the net force on
  each body, the sum of the contributions of its pairs. Around it sit the
  order-independence and total-force lemmas.
- `Simulation` (`simulation.dfy`) covers `Game`: the initial game, `addBody`,
  and the physics part of `Game.Update`.

Notes on the modelling choices:

- Numbers are exact reals rather than `float64`. The algebraic identities of
  the physics therefore hold exactly: equal and opposite forces, and sums that
  do not depend on the pair order.
- `ApplyGravity` computes `r = sqrt(dx*dx + dy*dy)` and then divides by `r * r`.
  Over the reals that is `dx*dx + dy*dy`, so the model uses the squared
  distance directly and never takes a square root.
- The force law scales the un-normalised difference `(dx, dy)` by
  `G * mA * mB / r^2`. The resulting vector has length `G * mA * mB / r`, so the
  force falls off as `1/r`, not as an inverse square. The model keeps the
  code's law; `Bodies.GravityMagnitude` states the length.
- The source has no guard for two bodies whose centers coincide. There it
  divides the mass product by zero and multiplies the resulting infinity by a
  zero difference. That gives NaN in the forces of those two bodies, and
  `Update` then makes their velocities and positions NaN. In the next frame
  every body paired with one of them gets a NaN force. The model follows the
  code: gravity requires distinct centers. `Separated` states this for a whole
  pair list, and
  `Simulation.ClicksSeparated` shows that a game built by clicks satisfies it
  exactly when no two clicks hit the same point. Giving such a pair zero force
  instead would differ from the code, and is not modelled.

## Model

| member | source | states |
|---|---|---|
| `Bodies.NewBody` | body/body.go:131-138 | the new body has the given position, velocity, radius and mass, and its force starts at zero (Go's zero value) |
| `Bodies.Center` | body/body.go:172-177 | the center is the stored position shifted by the radius on both axes |
| `Bodies.PointDistanceXY` | body/body.go:28-45 | both components are non-negative, and a component is zero exactly when the points agree on that axis |
| `Bodies.PointDistanceXYIsAbsDiff` | body/body.go:28-45 | the three-way branch per axis computes the absolute value of the signed difference |
| `Bodies.PointDistanceXYSymmetric` | body/body.go:28-45 | swapping the two points gives the same per-axis distance |
| `Bodies.PointDistanceSqPositive` | body/body.go:47-50 | the squared distance is positive for distinct points and zero for equal ones, so the force law divides by a non-zero value exactly when the centers differ |
| `Bodies.PointDistanceSq` | body/body.go:48-49 | the squared distance of two points is never negative |
| `Bodies.PointDistanceSqOfDiff` | body/body.go:47-50 | the squared distance equals the squared length of the signed difference vector |
| `Bodies.GetAtoBDiff` | body/body.go:104-106 | adding the result to `a` gives `b`: it is the signed vector from a to b |
| `Bodies.GetAtoBDiffAntisymmetric` | body/body.go:104-106 | swapping the arguments negates both components |
| `Bodies.GravityForce` | body/body.go:115-121 | the force added to `a` is parallel to the difference of the two centers, and its dot product with that difference is G * mA * mB |
| `Bodies.Gravity` | body/body.go:115-121 | the force law on centers and masses is parallel to the difference from `a`'s center to `b`'s, with dot product G * mA * mB with it, so it points toward `b` for a positive mass product |
| `Bodies.GravityCharacterized` | body/body.go:115-121 | those two properties determine the force law: any vector parallel to the difference with that dot product is the force |
| `Bodies.GravityMagnitude` | body/body.go:115-121 | the squared length of the force times the squared distance is (G * mA * mB)^2, so the length is G * mA * mB / r |
| `Bodies.GravityPointsToward` | body/body.go:115-121 | with positive masses the force has a positive component along the difference of the centers |
| `Bodies.ApplyGravity` | body/body.go:113-128 | `a`'s force grows by the gravity vector and `b`'s shrinks by the same vector, so their sum is unchanged; no other field of either body changes |
| `Bodies.GravityForceAntisymmetric` | body/body.go:115-121 | the force of b on a is the negation of the force of a on b |
| `Bodies.GravityForceAttracts` | body/body.go:117-121 | with positive masses, each component of the force on `a` has the sign of the other center's offset on that axis, so the force points toward `b` |
| `Bodies.GravityForceIgnoresForce` | body/body.go:115-121 | the force depends only on centers and masses; bodies that differ only in their force accumulators get the same force |
| `Bodies.ApplyGravityExample` | body/body.go:113-128 | two unit masses whose centers are 3-4-5 apart receive forces (0.12, 0.16) and (-0.12, -0.16) |
| `Bodies.UnitGravityExample` | body/body.go:115-121 | the force law on centers (0, 0) and (3, 4) with unit masses is (3, 4) scaled by 1/25 |
| `Bodies.ZeroForce` | main.go:84-86 | the force becomes zero and nothing else changes |
| `Bodies.ZeroForceIdempotent` | main.go:84-86 | zeroing twice is the same as zeroing once |
| `Bodies.Update` | body/body.go:147-155 | the velocity grows by the force, the position then moves by the new velocity, and radius, mass and force are kept |
| `Bodies.UpdateDisplacement` | body/body.go:147-155 | the displacement of a step is old velocity plus force, and the center moves by the new velocity |
| `Pairs.Fan` | main.go:272-277 | the pairs added for new body t are (0, t), ..., (m - 1, t), in index order |
| `Pairs.FanCount` | main.go:272-277 | these pairs contain (i, t) exactly once for each i < m, and no other pair |
| `Pairs.TriangularClosedForm` | main.go:271-279 | 0 + 1 + ... + (n - 1) = n(n - 1)/2 |
| `Pairs.NoSelfPairs` | main.go:275-276 | in a well-formed pair list no body is paired with itself |
| `Pairs.AbsentBeyond` | main.go:275-276 | a list of pairs of the first n bodies never mentions body n |
| `Pairs.AppendFanKeepsWellPaired` | main.go:271-279 | appending the new body's pairs to a list holding each unordered pair of n bodies exactly once gives such a list for n + 1 bodies |
| `Interactions.ApplyGravityAt` | main.go:102-104 | `ApplyGravity` on two bodies of the list adds that pair's contribution to each body's force and changes nothing else |
| `Interactions.Accumulate` | main.go:102-104 | after the loop over the pairs, each body's force is its initial force plus the net force of the pairs it belongs to; position, velocity, radius and mass are kept |
| `Interactions.PullIgnoresForce` | body/body.go:115-121 | a pair's contribution is unaffected by forces accumulated earlier in the loop |
| `Interactions.NetForceIgnoresForce` | main.go:102-104 | the net force on a body depends only on centers and masses |
| `Interactions.NetForceConcat` | main.go:102-104 | the net force of a concatenation of pair lists is the sum of their net forces |
| `Interactions.NetForcePermutation` | main.go:102-104 | any permutation of the pair list gives the same net force on every body |
| `Interactions.AccumulateOrderIndependent` | main.go:102-104 | processing the pairs in any order yields the same bodies |
| `Interactions.ApplyGravityAtKeepsTotal` | body/body.go:123-126 | one `ApplyGravity` leaves the sum of all forces in the system unchanged |
| `Interactions.AccumulateKeepsTotal` | main.go:102-104 | the whole accumulation loop leaves the sum of all forces unchanged |
| `Simulation.NewGame` | main.go:291-293 | the initial game has no bodies and no pairs |
| `Simulation.AddBody` | main.go:254-285 | exactly one body is appended: at the given position, radius 5, mass 0.1, at rest, force zero; earlier bodies and pairs are kept; the pairs (0, n), ..., (n - 1, n) are appended for the new index n, so the first body adds none |
| `Simulation.AddBodyLoop` | main.go:271-279 | the pairing loop appends the same pairs as `AddBody`, keeping the earlier ones |
| `Simulation.AddBodyPairs` | main.go:271-279 | the pairs one click appends are exactly the fan (0, n), ..., (n - 1, n) of the new body, none for the first body |
| `Simulation.AddBodyKeepsWellPaired` | main.go:254-285 | adding a body keeps the pair list exactly one entry per unordered pair, with a triangular count |
| `Simulation.Clicks` | main.go:254-285 | each click appends one body and keeps the earlier bodies and pairs in place |
| `Simulation.ClicksWellPaired` | main.go:271-279 | after any sequence of clicks from the initial game, every pair is (i, j) with i < j < n and every unordered pair occurs exactly once |
| `Simulation.ClicksPairCount` | main.go:271-279 | n clicks from the initial game give n(n - 1)/2 pairs |
| `Simulation.ClickBody` | main.go:256-269 | the k-th click places the k-th body, at rest, at the clicked position |
| `Simulation.ClickCenters` | body/body.go:172-177 | two clicked bodies share a center exactly when the clicks hit the same point |
| `Simulation.ClicksSeparated` | body/body.go:115-119 | a game built by clicks has gravity defined for all of its pairs exactly when no two clicks hit the same point |
| `Simulation.SameClicksNotSeparated` | body/body.go:115-119 | two clicks on one point leave a pair in the list whose centers coincide |
| `Simulation.ClicksHavePair` | main.go:271-279 | every pair of clicked bodies is in the pair list |
| `Simulation.SeparatedWhenApart` | body/body.go:115-119 | over a pair list of distinct in-range indices, gravity is defined as soon as no two bodies share a center |
| `Simulation.ZeroForcesLoop` | main.go:84-86 | the first loop zeroes every force and changes nothing else |
| `Simulation.AccumulateLoop` | main.go:102-104 | the second loop leaves each body's force at its initial force plus its net force |
| `Simulation.UpdateAllLoop` | main.go:135-137 | the third loop advances every body's velocity by its force |
| `Simulation.ZeroForces` | main.go:84-86 | every force is zero and position, velocity, radius and mass are kept |
| `Simulation.UpdateAll` | main.go:135-137 | every body is replaced by its `Update` |
| `Simulation.Step` | main.go:84-137 | after a frame, each body's force is the net force of its pairs, whatever force it had before; its velocity grew by that force; its position moved by the new velocity; radius, mass and pairs are kept |
| `Simulation.StepLoop` | main.go:84-137 | the three loops run in order compute the same frame as `Step` |
| `Simulation.NetForceOfZeroed` | main.go:84-104 | zeroing the forces before the accumulation loop changes no net force |
| `Simulation.StepIgnoresForces` | main.go:84-137 | forces left over from the previous frame have no effect on the next |
| `Simulation.StepOrderIndependent` | main.go:102-104 | any permutation of the pair list gives the same frame |
| `Simulation.StepForcesCancel` | main.go:84-104 | after the accumulation the forces on all bodies sum to zero |
| `Simulation.StepKeepsTotalVelocity` | main.go:84-137 | a frame leaves the sum of the velocities unchanged, because `Update` adds the force to the velocity directly and the forces cancel |
| `Simulation.StepMovesTotalPosition` | main.go:135-137 | the sum of the positions advances by the sum of the new velocities |
| `Simulation.Steps` | main.go:84-137 | n frames keep the pair list, the number of bodies, and every radius and mass |
| `Simulation.StepAtRestKeepsCentroid` | main.go:84-137 | a frame that starts with velocities summing to zero keeps them summing to zero and keeps the sum of the positions |
| `Simulation.StepsAtRestKeepCentroid` | main.go:84-137 | the same holds after any number of frames |
| `Simulation.TwoBodiesStaySymmetric` | main.go:84-137 | two bodies with opposite velocities, for instance both at rest, stay symmetric about their midpoint after any number of frames: the sums of their top-left corners and of their centers are fixed, and their velocities stay opposite; since `Update` never divides by the mass this holds for unequal masses too |

## Left out

- `PointDistance` (body/body.go:47-51) takes a square root, which has no exact
  counterpart over the reals without an axiom. The force law only uses its
  square, which the model computes directly as `PointDistanceSq`.
- Floating point: every `float64` is a `real`. Rounding, overflow, infinities
  and NaN are not modelled. In particular the NaN that coincident centers
  produce is excluded by a precondition instead.
- The screen-to-world mapping in `addBody` (viewport scale and offsets,
  main.go:257-258) is input handling. `AddBody` takes world coordinates that
  are already converted.
- Rendering: `Draw`, `Layout`, the background, `Body.Draw`, the body image and
  `drawCircle`. They only draw pixels.
- Input and camera: key and mouse polling, zoom and pan.
- Concurrency: `calcPairsGoroutine`, the wait group and `applyGravityMutex`.
  The goroutine path sits behind `if false` and never runs. It would also apply
  the pair at index `a` on every iteration instead of the pair at `i`
  (main.go:164).
- Randomness and colour: `spawnToRandom` and the random body colours. The
  physics never reads a colour.
- `vec/vec.go`, `config/config.go`, `pairBuffer` and `BodyCountMax` are unused
  by the physics.
- Go's `int` is 64 bits wide. Click coordinates are unbounded integers here,
  since the conversion to `float64` is the only arithmetic the core does on them.
