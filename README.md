# Character movement of Game3D, modelled in Dafny

This project models the `Character` class of Game3D
(`modules/common/ts/common/character.ts`). That class runs one movement tick per
frame for a character of the 3D platformer:

- it probes which kinds of surface (ground, wall) the character touches;
- it turns the joystick input into horizontal acceleration and turns the
  character to face it;
- it decides ground jumps and wall jumps;
- it caps the horizontal speed;
- it applies gravity and caps the vertical speed;
- it moves the character along its velocity, snapping to the surfaces the
  movement ray hits;
- finally it probes the contacts again and re-applies gravity.

The model has two layers.

- **Value layer.** The modules `Vectors`, `Surfaces`, `Kinematics` and `Motion`
  state each step of the tick as a function on values:
  - `Motion.State` holds the character's movement fields;
  - `Motion.Tick` is one whole `preformTick`;
  - `Motion.Run` is a sequence of ticks.
- **Class layer.** The class `Characters.Character` keeps those fields as mutable
  fields. Its methods update them in place, following the source step by step.
  Each method is proved to produce exactly the state the matching value-level
  function describes.

Properties of the tick are proved about the value layer, as lemmas and as
`ensures` clauses:

- the vertical speed bound;
- the edge-triggered ground jump;
- the wall-jump guard;
- the unit ray of view;
- the contact map's keys.

The engine parts the class calls are not modelled. Instead they are
parameters:

- the scene's ray query (`World.pick`);
- `Math.sqrt`, as an oracle `sqrt` constrained by `IsSqrt`;
- the frame time `getDeltaTime()`, as a fixed `dt` in milliseconds;
- the input controller's state after its own tick (`Motion.Input`).

Floating-point numbers are modelled as reals.

Some behaviours of the code are easy to misread; the model follows the code as
written:

- **Jump release.** Releasing jump re-arms `canWallJumpNow` but does not clear
  the remembered wall.
- **Ground contact.** Touching the ground clears the remembered wall but does not
  re-arm the wall jump (lines 339-358).
- **Acceleration axes.** Acceleration adds the input's x component to the
  velocity's z axis and its z component to the velocity's x axis (lines
  242-246). So a stick pushed fully along x on the ground gives velocity
  (0, 0, 3.5), not an increase of velocity.x (`Kinematics.InputAlongXPushesAlongZ`,
  `Kinematics.GroundedPushAlongZ`).
- **Position loop.** The loop runs once per registered surface type (lines
  366-378). With no hits the position advances by the displacement once per type,
  not once per tick (`Kinematics.PositionAfterWithoutHits`).
- **Time unit.** The displacement and the gravity step divide `dt` by 1000.
- **Wall-jump guard.**
  - The wall jump fires only when the mesh hit along the ray of view is the
    remembered last wall (line 272).
  - That wall starts null (line 59).
  - It is only ever set inside that same branch (line 297).
  - So from a freshly constructed character the wall-jump body is unreachable on
    every run. `Motion.RunInvariant` and `Characters.Character.PreformTick` prove
    that the `Dormant` state (no wall remembered, wall jump armed) is kept
    forever.
  - The wall jump itself is still modelled exactly as written
    (`Motion.WallJump`, `Characters.Character.PreformWallJump`).
- **Height setter.** It writes only while the height is falsy (line 190). The
  height starts at 2, so the setter never writes (`Characters.Character.SetHeight`).
  The class invariant `Valid` records the height as fixed.
- **Speed cap.** The horizontal speed cap does not do what it evidently intends;
  see "Findings". The rest of the model uses the intended rescaling.

## Model

| member | source | states |
|---|---|---|
| `Vectors.NormalizeFromLength` | modules/common/ts/common/character.ts:311-313 | the engine's `normalizeFromLength(len)`: unchanged when `len` is 0 or 1, otherwise the result times `len` is the input |
| `Vectors.NormalizeIsUnit` | modules/common/ts/common/character.ts:239 | `normalize()` of a non-zero vector (divide by its length) has length 1 and points the same way |
| `Vectors.Reflect` | modules/common/ts/common/character.ts:293-294 | the wall-jump reflection `v - 2 (v . n) n`: its component along `n` is that of `v` times one minus twice the squared length of `n`, so it is negated for a unit normal; the part in the wall's plane is kept (`Vectors.ReflectKeepsTangent`) |
| `Vectors.ReflectKeepsTangent` | modules/common/ts/common/character.ts:293-294 | the reflection keeps the velocity's component along every direction in the wall's plane, so only the normal part changes |
| `Vectors.ReflectIsometry` | modules/common/ts/common/character.ts:293-294 | reflecting in a unit normal keeps the speed |
| `Vectors.ReflectInvolution` | modules/common/ts/common/character.ts:293-294 | reflecting twice in the same unit normal gives the velocity back |
| `Vectors.Horizontal2` | modules/common/ts/common/character.ts:308 | `length() ** 2 - y ** 2` is the squared horizontal speed, between 0 and the squared length |
| `Surfaces.Touches` | modules/common/ts/common/character.ts:222 | a pick counts as contact only when there is a hit and it reports a picked point; no hit is no contact |
| `Surfaces.ContactRay` | modules/common/ts/common/character.ts:216-217 | the probe ray starts at the position, is half the height long, follows a non-zero velocity, and never has a zero direction (straight down at rest) |
| `Surfaces.ProbeAll` | modules/common/ts/common/character.ts:215-223 | after probing a list of surface types, the map has exactly the old keys plus those types; each probed type maps to whether the ray reports a picked point, and every other entry is unchanged |
| `Surfaces.ProbeAllExtend` | modules/common/ts/common/character.ts:215-223 | probing one more surface type only updates that type's entry (the step of the `forEach`) |
| `Kinematics.Magnitude2` | modules/common/ts/common/character.ts:227 | `x ** 2 + z ** 2` is never negative |
| `Kinematics.GravitationalAcceleration` | modules/common/ts/common/character.ts:162-166 | on a wall the wall-slide value -83.333; off a wall, -90 when jump is held and -100 otherwise, so holding jump weakens the pull exactly when held; every choice pulls downward |
| `Kinematics.HorizontalMovementScaleFactor` | modules/common/ts/common/character.ts:393-395 | the scale factor is 5 exactly when grounded, and 1 when airborne |
| `Kinematics.RescaleInput` | modules/common/ts/common/character.ts:229-232 | outside the deadzone the rescaled input has Manhattan length equal to the input's Euclidean length, and is a non-negative multiple of the input (same line, same quadrant) |
| `Kinematics.RescaleFactor` | modules/common/ts/common/character.ts:230-232 | the factor `r / (abs(x) + abs(z))` is positive and brings the Manhattan length to `r` |
| `Kinematics.InputOutsideDeadzoneIsNonZero` | modules/common/ts/common/character.ts:227-229 | an input whose magnitude passes the deadzone test is not the zero input, so the division by `abs(x) + abs(z)` is defined |
| `Kinematics.InputDirection` | modules/common/ts/common/character.ts:229-246 | the input contribution is horizontal, and inside the deadzone it is zero |
| `Kinematics.InputDirectionShape` | modules/common/ts/common/character.ts:229-246 | outside the deadzone the input contribution's Manhattan length is the input magnitude, and it is always a non-negative multiple of the input with the axes swapped, so it never points against the input |
| `Kinematics.AccelerateHorizontal` | modules/common/ts/common/character.ts:226-252 | acceleration never changes the vertical velocity, and inside the deadzone only ground friction acts |
| `Kinematics.AccelerationSteps` | modules/common/ts/common/character.ts:242-251 | the impulse step outside the deadzone followed by the friction step on the ground gives `AccelerateHorizontal` |
| `Kinematics.AccelerationImpulse` | modules/common/ts/common/character.ts:242-251 | beyond friction, the velocity change is the input contribution scaled by (friction factor) x (scale factor): its Manhattan length is that product times the contribution's, and it is a non-negative multiple of the swapped input whenever the contribution is, so it pushes the way the input points |
| `Kinematics.InputAlongXPushesAlongZ` | modules/common/ts/common/character.ts:229-246 | the input (1, 0) contributes the direction (0, 0, 1): the input's x drives the velocity's z |
| `Kinematics.GroundedPushAlongZ` | modules/common/ts/common/character.ts:242-251 | standing still on the ground, that push leaves velocity (0, 0, 3.5): 5 along z, of which friction keeps 0.7 |
| `Kinematics.RayOfViewAfter` | modules/common/ts/common/character.ts:234-240 | when grounded and outside the deadzone the new ray of view is horizontal; otherwise it is unchanged |
| `Kinematics.RayOfViewFacesInput` | modules/common/ts/common/character.ts:239 | the new ray of view has length 1 and is a positive multiple of the swapped input, so it faces the way the input points |
| `Kinematics.SprintFactor` | modules/common/ts/common/character.ts:302-307 | the proportionality constant is 1.3 sprinting on the ground, 1.2 sprinting in the air and 1 without sprint |
| `Kinematics.HorizontalSpeedCap` | modules/common/ts/common/character.ts:308-310 | for input magnitudes in [0, 1] the cap lies between the neutral and full caps times the sprint factor, and equals them at 0 and 1 |
| `Kinematics.LimitHorizontal` | modules/common/ts/common/character.ts:308-313 | corrected cap: the horizontal speed ends within the cap; a velocity within the cap is untouched; above it, the whole velocity is rescaled by a non-negative factor to length `cap` |
| `Kinematics.LimitHorizontalAsWritten` | modules/common/ts/common/character.ts:308-313 | the cap as written: within the cap the velocity is untouched; above it, the result times `cap` is the old velocity |
| `Kinematics.AsWrittenCapOvershoots` | modules/common/ts/common/character.ts:311-313 | for any cap above 1 and horizontal speed above the cap squared, the as-written cap leaves the horizontal speed above the cap |
| `Kinematics.AsWrittenCapExceeded` | modules/common/ts/common/character.ts:311-313 | the concrete input speed 20 with cap 2.5 is left above the cap by the code as written |
| `Kinematics.IntendedCapMet` | modules/common/ts/common/character.ts:308-313 | on the same input the corrected cap leaves exactly speed 2.5 |
| `Kinematics.GravityY` | modules/common/ts/common/character.ts:317-324 | airborne, half a gravity step is added (dt in milliseconds) and a downward pull never raises the vertical speed; grounded, a downward vertical velocity becomes 0 and an upward one is kept |
| `Kinematics.CapVertical` | modules/common/ts/common/character.ts:326-330 | the vertical speed ends within 50; within the bound it is untouched; above it, it becomes exactly 50 with the same sign |
| `Kinematics.AdvanceOrSnap` | modules/common/ts/common/character.ts:373-377 | a ray that reports a point snaps the position to that point; otherwise the position advances by the displacement |
| `Kinematics.PositionAfter` | modules/common/ts/common/character.ts:366-378 | the position after the loop over the surface types in order; with no types it is the start position (the two lemmas below give its meaning) |
| `Kinematics.PositionAfterWithoutHits` | modules/common/ts/common/character.ts:366-378 | when no ray hits, the loop advances the position by the displacement once per surface type |
| `Kinematics.PositionAfterSnapsToLastHit` | modules/common/ts/common/character.ts:373-374 | when the last ray hits, the final position is exactly its hit point |
| `Kinematics.IntegratePosition` | modules/common/ts/common/character.ts:364-379 | a zero-length displacement (or no surface types) leaves the position alone; otherwise the position is the result of the loop over the surface types |
| `Motion.OnSurface` | modules/common/ts/common/character.ts:234 | the contact map's `get`: a surface with no entry reads as not touched, otherwise the entry decides |
| `Motion.Initial` | modules/common/ts/common/character.ts:34-67 | a new character is at rest, touches nothing, has jump released, and is dormant (no wall remembered, wall jump armed) with both contact entries present |
| `Motion.InitialRayIsUnit` | modules/common/ts/common/character.ts:37 | the initial ray of view `(0, 0, 1).normalize()` has length 1 |
| `Motion.NoContact` | modules/common/ts/common/character.ts:64-67 | the initial contact map has entries for ground and wall, both false |
| `Motion.ProbeContacts` | modules/common/ts/common/character.ts:214-224 | only the contacts change; each registered type is touched exactly when the velocity ray (downward ray at zero velocity, half the height long) reports a point; unregistered types keep their entry |
| `Motion.InputMagnitude` | modules/common/ts/common/character.ts:227 | the magnitude is a non-negative square root of `x ** 2 + z ** 2`, and past the deadzone the input is non-zero |
| `Motion.Accelerate` | modules/common/ts/common/character.ts:226-252 | only velocity and ray of view change, as `AccelerateHorizontal` and `RayOfViewAfter` say, and a unit ray of view stays a unit vector |
| `Motion.Jump` | modules/common/ts/common/character.ts:254-256 | only the vertical velocity changes, to the jump velocity 28 |
| `Motion.WallProbe` | modules/common/ts/common/character.ts:260-268 | the pick along the ray of view, half the height long, among the walls only; nothing when no walls are registered |
| `Motion.WallJumpFires` | modules/common/ts/common/character.ts:269-277 | every early return is passed; that needs a remembered wall and registered walls |
| `Motion.WallJump` | modules/common/ts/common/character.ts:258-299 | on any early return (no hit, no mesh, not the remembered wall, no normal, no point) nothing changes; otherwise the velocity is reflected in the normal, its vertical part becomes the jump velocity and the wall jump is disarmed |
| `Motion.WallJumpNeedsRememberedWall` | modules/common/ts/common/character.ts:272 | with no wall remembered the wall jump never fires and changes nothing |
| `Motion.WallJumpAllowed` | modules/common/ts/common/character.ts:347-352 | the wall-jump guard holds only on a wall, off the ground, armed, and with input magnitude above 0.1 |
| `Motion.JumpDecisions` | modules/common/ts/common/character.ts:339-355 | release clears the jump state and re-arms the wall jump; a held jump on the ground without the jump state jumps and sets it; otherwise the wall jump runs exactly when its guard allows |
| `Motion.ForgetWall` | modules/common/ts/common/character.ts:356-358 | ground contact forgets the last wall; otherwise nothing changes |
| `Motion.CapHorizontal` | modules/common/ts/common/character.ts:301-315 | only the velocity changes; the horizontal speed ends within the cap, and a velocity within the cap is untouched |
| `Motion.Fall` | modules/common/ts/common/character.ts:317-330 | only the vertical velocity changes, to the capped gravity step, so it ends within the vertical bound |
| `Motion.Integrate` | modules/common/ts/common/character.ts:364-379 | only the position changes, and it does not change when the displacement has length zero |
| `Motion.Move` | modules/common/ts/common/character.ts:332-385 | after `move` the vertical speed is within 50, the height is kept, a released jump leaves the jump state clear and the wall jump armed, a held jump keeps the jump state, and the dormant state, the contact keys and a unit ray of view are preserved |
| `Motion.JumpKeepsDormant` | modules/common/ts/common/character.ts:339-355 | the jump branch keeps the dormant state, the ray of view, contacts and height, and never clears the jump state while jump is held |
| `Motion.Tick` | modules/common/ts/common/character.ts:387-391 | after `preformTick` the vertical speed is within 50, release re-arms, and the dormant state, contact keys, height and unit ray of view are preserved |
| `Motion.RunInvariant` | modules/common/ts/common/character.ts:58-59 | over any run of ticks, each with its own input, world and tick length, the character stays dormant, keeps a unit ray of view and keeps both contact entries |
| `Motion.RunBoundsVerticalSpeed` | modules/common/ts/common/character.ts:383-384 | after at least one tick the vertical speed is within 50 |
| `Motion.HeldJumpDoesNotRetrigger` | modules/common/ts/common/character.ts:343-346 | in the dormant state (every reachable state, by `Motion.RunInvariant`), once the jump state is set, holding jump changes nothing in the jump branch |
| `Motion.GroundJumpLaunches` | modules/common/ts/common/character.ts:343-346 | pressing jump on the ground sets the vertical velocity to 28, keeps the horizontal velocity, and records the press |
| `Motion.WallJumpOnlyWhenAllowed` | modules/common/ts/common/character.ts:347-354 | unless jump is held, the wall jump is armed, the wall is touched, the ground is not, and the input magnitude exceeds 0.1, no wall jump happens |
| `Characters.Character.constructor` | modules/common/ts/common/character.ts:34-67 | the field initialisers give the state `Initial` at the origin, which satisfies the class invariant and is dormant |
| `Characters.Character.SetHeight` | modules/common/ts/common/character.ts:189-192 | the height is written only while it is zero; nothing else changes and the class invariant is kept |
| `Characters.Character.SetMesh` | modules/common/ts/common/character.ts:194-197 | the mesh is written only the first time; nothing else changes and the class invariant is kept |
| `Characters.Character.SetWorld` | modules/common/ts/common/character.ts:199-202 | the world is written only the first time; nothing else changes and the class invariant is kept |
| `Characters.Character.SetPositionAndRotation` | modules/common/ts/common/character.ts:205-212 | with the mesh set (the source writes the mesh's position), only the position changes, to the given one, and the class invariant is kept |
| `Characters.Character.CheckCollisions` | modules/common/ts/common/character.ts:214-224 | the loop over the registered surface types leaves exactly the state `ProbeContacts` describes |
| `Characters.Character.AccelerateAndRotateHorizontalComponents` | modules/common/ts/common/character.ts:226-252 | the in-place updates leave exactly the state `Accelerate` describes; grounded outside the deadzone the mesh must be set, since the source turns it |
| `Characters.Character.PreformJump` | modules/common/ts/common/character.ts:254-256 | the state becomes `Jump` of the old state |
| `Characters.Character.PreformWallJump` | modules/common/ts/common/character.ts:258-299 | the early returns and the reflection leave exactly the state `WallJump` describes |
| `Characters.Character.ApplyHorizontalMovementInfluences` | modules/common/ts/common/character.ts:301-315 | the state becomes `CapHorizontal` of the old state (the corrected cap) |
| `Characters.Character.ApplyGravity` | modules/common/ts/common/character.ts:317-324 | only the vertical velocity changes, to the `GravityY` step for the current contacts and jump input |
| `Characters.Character.CapYVelocity` | modules/common/ts/common/character.ts:326-330 | only the vertical velocity changes, to `CapVertical` of it, so it ends within 50 |
| `Characters.Character.IntegratePositionLoop` | modules/common/ts/common/character.ts:364-379 | the loop over the surface types leaves exactly the state `Integrate` describes; whenever the loop runs the mesh must be set, since each pass writes its position |
| `Characters.Character.JumpBranch` | modules/common/ts/common/character.ts:339-355 | the jump branch of `move` leaves exactly the state `JumpDecisions` describes |
| `Characters.Character.ForgetWallOnGround` | modules/common/ts/common/character.ts:356-358 | the state becomes `ForgetWall` of the old state |
| `Characters.Character.FallAndCap` | modules/common/ts/common/character.ts:361-362 | gravity then the vertical cap leave exactly the state `Fall` describes |
| `Characters.Character.Move` | modules/common/ts/common/character.ts:332-385 | with the mesh set (line 380 always reads its rotation), the in-place `move` leaves exactly the state `Motion.Move` describes |
| `Characters.Character.PreformTick` | modules/common/ts/common/character.ts:387-391 | with world and mesh set, the tick leaves exactly the state `Tick` describes, keeps the class invariant and the dormant state, and ends with vertical speed within 50 |

## Left out

- Rotation. This covers the orientation quaternion, the `atan2` facing rotation,
  the quaternion sandwich of the wall jump, and the mesh's own position and
  rotation mirroring. These are engine-side presentation that no movement
  decision reads.
- `RayHelper` drawing, `console.debug` and `console.assert`. They are debugging
  output.
- Health, mana, skill points, equipped skills and the inventory. No logic in the
  class uses them.
- The getters. They return fields, and the model reads the fields directly.
- The input controller and its own tick (line 389). Its state after that tick is
  the `Motion.Input` parameter. The null check on the movement vector (line 333)
  is not modelled: the input is always present.
- The engine's ray query `pickWithRay`, its mesh filter and the collidables lists.
  The world supplies them as `World.pick`, a function of the ray and the surface
  type; the scene does not change during a tick.
- `World` and the world's surface keys. `client/world.ts` and the engine are not
  part of this model. Surface types are the closed set {Ground, Wall}.
- Identity of the contact map's keys. The source's initial entries use fresh key
  objects that lookups with the world's keys never find. In the model they are
  entries for Ground and Wall set to false, and a missing entry also reads as
  false.
- Floating point. Vectors hold reals, so rounding, NaN and infinities are not
  modelled. `Math.sqrt` is an oracle assumed exact on non-negative reals.
- `getDeltaTime()`. It is read as one fixed `dt` for the whole tick, although
  the source calls it several times.
- The position before `setPositionAndRotation`. The source leaves it undefined;
  the model starts at the origin.
- Motion.Run. It is a driver for stating properties over many ticks; the source
  runs ticks from the game loop. Each tick gets its own input, world and tick
  length.
- The early return of `preformWallJump` when the ray of view is null (line 259).
  It cannot fire: the field is initialised at line 37 and afterwards only
  changed in place at line 239, so `Motion.WallJumpFires` has no such case.
- Motion.Move and Motion.Tick. The value-level state holds no mesh, so the
  TypeError the source raises when ticking without a mesh shows only as the
  class methods' requirement that the mesh is set.
- Characters.Character.SetPositionAndRotation. It ignores the rotation argument,
  because rotation is left out.
- Characters.Character.AccelerateAndRotateHorizontalComponents. It does not set
  the mesh's facing rotation, because rotation is left out.
- Characters.Character.PreformWallJump. It does not draw rays or rotate the
  mesh.
- Characters.Character.ApplyHorizontalMovementInfluences and
  `Motion.CapHorizontal`. They apply the corrected speed cap, which rescales the
  velocity to length `cap`, not the engine's division by `cap` that the source
  writes. See "Findings".

## Findings

| source | as written | input that shows it | evidently intended | confidence | as-written member | corrected member |
|---|---|---|---|---|---|---|
| modules/common/ts/common/character.ts:311-313 | above the horizontal speed cap the velocity is passed to `normalizeFromLength(cap)`. In the engine this divides the vector by `cap`, and does nothing at all when `cap` is exactly 1. | Grounded, no sprint, stick released: the cap is 2.5. A velocity (20, 0, 0) becomes (8, 0, 0), still above the cap. Any cap above 1 with horizontal speed above cap squared stays above the cap. | rescale the velocity to length `cap`, so the horizontal speed ends within the cap | not executed | `Kinematics.AsWrittenCapExceeded` | `Kinematics.LimitHorizontal` |
