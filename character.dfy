/** The `Character` class: its movement state as fields, updated in place by
    the methods of one tick, each proved to compute the corresponding step of
    the `Motion` model. */
module Characters {
  import opened Wrappers
  import opened Vectors
  import opened Surfaces
  import opened Kinematics
  import opened Motion

  class Character {
    var position: Vec3
    var velocity: Vec3
    var rayOfView: Vec3
    var contact: Contacts
    var jumpState: bool
    var canWallJumpNow: bool
    var lastWall: Option<MeshId>
    var height: real
    /** The character's mesh and world; each can be set once. */
    var mesh: Option<MeshId>
    var world: Option<World>

    /** The movement state held in the fields. */
    function Snapshot(): State
      reads this
    {
      State(position, velocity, rayOfView, contact, jumpState, canWallJumpNow, lastWall, height)
    }

    /** Every surface type has a contact entry, the ray of view is a unit
        vector and the height keeps its initial value. */
    ghost predicate Valid()
      reads this
    {
      Total(contact) && Norm2(rayOfView) == 1.0 && height == DefaultHeight
    }

    /** The field initialisers. The position is left unset by the source
        until `setPositionAndRotation`; it starts at the origin here. */
    constructor()
      ensures mesh.None? && world.None?
      ensures Snapshot() == Initial(Zero)
      ensures Valid() && Dormant(Snapshot())
    {
      position := Zero;
      velocity := Zero;
      rayOfView := NormalizeFromLength(Forward, 1.0);
      contact := NoContact();
      jumpState := false;
      canWallJumpNow := true;
      lastWall := None;
      height := DefaultHeight;
      mesh := None;
      world := None;
      new;
      assert mesh.None? && world.None? && Snapshot() == Initial(Zero);
      ForwardRayIsUnit(rayOfView);
    }

    /** The `characterHeight` setter only writes while the height is zero;
        the height starts at 2, so it never writes. */
    method SetHeight(h: real)
      modifies this
      ensures mesh == old(mesh) && world == old(world)
      ensures old(height) != 0.0 ==> height == old(height)
      ensures old(height) == 0.0 ==> height == h
      ensures Snapshot() == old(Snapshot()).(height := height)
      ensures old(Valid()) ==> Valid()
    {
      if height != 0.0 {
        return;
      }
      height := h;
    }

    /** The `mesh` setter writes only the first time. */
    method SetMesh(m: MeshId)
      modifies this
      ensures mesh == if old(mesh).Some? then old(mesh) else Some(m)
      ensures Snapshot() == old(Snapshot()) && world == old(world)
      ensures old(Valid()) ==> Valid()
    {
      if mesh.Some? {
        return;
      }
      mesh := Some(m);
    }

    /** The `characterWorld` setter writes only the first time. */
    method SetWorld(w: World)
      modifies this
      ensures world == if old(world).Some? then old(world) else Some(w)
      ensures Snapshot() == old(Snapshot()) && mesh == old(mesh)
      ensures old(Valid()) ==> Valid()
    {
      if world.Some? {
        return;
      }
      world := Some(w);
    }

    /** `setPositionAndRotation`, without the rotation: the position is
        replaced and nothing else moves. The source writes the mesh's position
        too, so the mesh must be set. */
    method SetPositionAndRotation(pos: Vec3)
      requires mesh.Some?
      modifies this
      ensures mesh == old(mesh) && world == old(world)
      ensures Snapshot() == old(Snapshot()).(position := pos)
      ensures old(Valid()) ==> Valid()
    {
      position := pos;
    }

    /** `checkCollisions`: the loop over the registered surface types. */
    method CheckCollisions()
      requires world.Some?
      modifies this
      ensures mesh == old(mesh) && world == old(world)
      ensures Snapshot() == ProbeContacts(old(Snapshot()), world.value)
    {
      var types := world.value.collidableTypes;
      var pick := world.value.pick;
      var ray := ContactRay(position, velocity, height);
      var i := 0;
      while i < |types|
        invariant 0 <= i <= |types|
        invariant contact == ProbeAll(old(contact), types[..i], ray, pick)
        invariant Snapshot() == old(Snapshot()).(contact := contact)
        invariant mesh == old(mesh) && world == old(world)
      {
        var hit := pick(ray, types[i]);
        ProbeAllExtend(old(contact), types, i, ray, pick);
        contact := contact[types[i] := hit.Some? && hit.value.point.Some?];
        i := i + 1;
      }
      assert types[..i] == types;
    }

    /** `accelerateAndRotateHorizontalComponents(x, z)` without the facing
        rotation. Grounded and outside the deadzone the source turns the mesh,
        so there the mesh must be set. */
    method AccelerateAndRotateHorizontalComponents(x: real, z: real, sqrt: real -> real)
      requires IsSqrt(sqrt)
      requires OnSurface(contact, Ground) && sqrt(Magnitude2(x, z)) > InputDeadzone ==> mesh.Some?
      modifies this
      ensures mesh == old(mesh) && world == old(world)
      ensures Snapshot() == Accelerate(old(Snapshot()), x, z, sqrt)
    {
      var r := sqrt(Magnitude2(x, z));
      var grounded := OnSurface(contact, Ground);
      InputOutsideDeadzoneIsNonZero(x, z, r);
      var d := InputDirection(x, z, r);
      ghost var v0 := velocity;
      if r > InputDeadzone {
        if grounded {
          rayOfView := NormalizeFromLength(d, sqrt(Norm2(d)));
        }
        velocity := Pushed(velocity, d, HorizontalMovementScaleFactor(grounded));
      }
      ghost var u := velocity;
      if grounded {
        velocity := Friction(velocity);
      }
      AccelerationSteps(v0, u, velocity, x, z, r, grounded);
    }

    /** `preformJump`. */
    method PreformJump()
      modifies this
      ensures mesh == old(mesh) && world == old(world)
      ensures Snapshot() == Jump(old(Snapshot()))
    {
      velocity := velocity.(y := VerticalJumpVelocity);
    }

    /** `preformWallJump` without the rotation and the debug drawing; every
        early return of the source is kept. */
    method PreformWallJump()
      requires world.Some?
      modifies this
      ensures mesh == old(mesh) && world == old(world)
      ensures Snapshot() == WallJump(old(Snapshot()), world.value)
    {
      var hit := if Wall in world.value.collidableTypes
                 then world.value.pick(Ray(position, rayOfView, height / 2.0), Wall)
                 else None;
      if hit.None? {
        return;
      }
      if hit.value.mesh.None? {
        return;
      }
      var wall := hit.value.mesh.value;
      if lastWall == Some(wall) {
        if hit.value.normal.None? {
          return;
        }
        var n := hit.value.normal.value;
        if hit.value.point.None? {
          return;
        }
        velocity := Sub(velocity, Scale(n, 2.0 * Dot(velocity, n)));
        velocity := Vec3(velocity.x, VerticalJumpVelocity, velocity.z);
        canWallJumpNow := false;
        lastWall := Some(wall);
      }
    }

    /** `applyHorizontalMovementInfluences`, with the cap applied as intended:
        above the cap the velocity is rescaled to length `cap`. `m` is the
        input magnitude. */
    method ApplyHorizontalMovementInfluences(sprint: bool, m: real, sqrt: real -> real)
      requires IsSqrt(sqrt)
      modifies this
      ensures mesh == old(mesh) && world == old(world)
      ensures Snapshot() == CapHorizontal(old(Snapshot()), sprint, m, sqrt)
    {
      var grounded := OnSurface(contact, Ground);
      var proportionalityConstant := 1.0;
      if sprint && grounded {
        proportionalityConstant := 1.3;
      } else if sprint && !grounded {
        proportionalityConstant := 1.2;
      }
      var cap := proportionalityConstant
                 * (MaxHorizontalSpeedNeutral * (1.0 - m) + MaxHorizontalSpeedFull * m);
      assert cap == HorizontalSpeedCap(sprint, grounded, m);
      var len := sqrt(Norm2(velocity));
      if Horizontal2(velocity) > Sq(cap) {
        velocity := Scale(velocity, cap / len);
      }
    }

    /** `applyGravity`: only the vertical velocity changes. */
    method ApplyGravity(jump: bool, dt: real)
      modifies this
      ensures mesh == old(mesh) && world == old(world)
      ensures Snapshot() == old(Snapshot()).(velocity := old(velocity).(y := velocity.y))
      ensures velocity.y == GravityY(old(velocity.y), Grounded(old(Snapshot())),
                                     GravitationalAcceleration(OnWall(old(Snapshot())), jump), dt)
    {
      var grounded := OnSurface(contact, Ground);
      if !grounded {
        var g := GravitationalAcceleration(OnSurface(contact, Wall), jump);
        velocity := velocity.(y := velocity.y + 0.5 * g * (dt / 1000.0));
      }
      if grounded && velocity.y < 0.0 {
        velocity := velocity.(y := 0.0);
      }
    }

    /** `capYVelocity`. */
    method CapYVelocity()
      modifies this
      ensures mesh == old(mesh) && world == old(world)
      ensures Snapshot() == old(Snapshot()).(velocity := old(velocity).(y := CapVertical(old(velocity.y))))
      ensures Abs(velocity.y) <= MaxVerticalSpeed
    {
      if Abs(velocity.y) > MaxVerticalSpeed {
        velocity := velocity.(y := MaxVerticalSpeed * Sign(velocity.y));
      }
    }

    /** The position loop of `move`. Every pass writes the mesh's position
        too, so the mesh must be set whenever the loop runs. */
    method IntegratePositionLoop(dt: real, sqrt: real -> real)
      requires world.Some? && IsSqrt(sqrt)
      requires sqrt(Norm2(Scale(velocity, dt / 1000.0))) > 0.0 && world.value.collidableTypes != [] ==> mesh.Some?
      modifies this
      ensures mesh == old(mesh) && world == old(world)
      ensures Snapshot() == Integrate(old(Snapshot()), world.value, dt, sqrt)
    {
      var delta := Scale(velocity, dt / 1000.0);
      var len := sqrt(Norm2(delta));
      if len > 0.0 {
        var types := world.value.collidableTypes;
        var pick := world.value.pick;
        var i := 0;
        while i < |types|
          invariant 0 <= i <= |types|
          invariant position == PositionAfter(old(position), delta, len, types[..i], pick)
          invariant Snapshot() == old(Snapshot()).(position := position)
          invariant mesh == old(mesh) && world == old(world)
        {
          var hit := pick(Ray(position, delta, len), types[i]);
          if hit.Some? && hit.value.point.Some? {
            position := hit.value.point.value;
          } else {
            position := Add(position, delta);
          }
          assert types[..i + 1][..i] == types[..i];
          i := i + 1;
        }
        assert types[..i] == types;
      }
    }

    /** The jump branch of `move`. `m` is the input magnitude. */
    method JumpBranch(jump: bool, m: real)
      requires world.Some?
      modifies this
      ensures mesh == old(mesh) && world == old(world)
      ensures Snapshot() == JumpDecisions(old(Snapshot()), jump, m, world.value)
    {
      if !jump {
        jumpState := false;
        canWallJumpNow := true;
      } else {
        if OnSurface(contact, Ground) && !jumpState {
          PreformJump();
          jumpState := true;
        }
        if canWallJumpNow && OnSurface(contact, Wall) && !OnSurface(contact, Ground)
           && m > WallJumpInputThreshold {
          PreformWallJump();
        }
      }
    }

    /** Ground contact forgets the last wall. */
    method ForgetWallOnGround()
      modifies this
      ensures mesh == old(mesh) && world == old(world)
      ensures Snapshot() == ForgetWall(old(Snapshot()))
    {
      if OnSurface(contact, Ground) {
        lastWall := None;
      }
    }

    /** `applyGravity` then `capYVelocity`, as `move` runs them twice. */
    method FallAndCap(jump: bool, dt: real)
      modifies this
      ensures mesh == old(mesh) && world == old(world)
      ensures Snapshot() == Fall(old(Snapshot()), jump, dt)
    {
      ApplyGravity(jump, dt);
      CapYVelocity();
    }

    /** `move`. It always reads the mesh's rotation, so the mesh must be set. */
    method Move(input: Input, dt: real, sqrt: real -> real)
      requires world.Some? && mesh.Some? && IsSqrt(sqrt)
      modifies this
      ensures mesh == old(mesh) && world == old(world)
      ensures Snapshot() == Motion.Move(old(Snapshot()), input, world.value, dt, sqrt)
    {
      ghost var s0 := Snapshot();
      AccelerateAndRotateHorizontalComponents(input.moveX, input.moveY, sqrt);
      ghost var s1 := Snapshot();
      var m := InputMagnitude(input.moveX, input.moveY, sqrt);
      JumpBranch(input.jump, m);
      ghost var s2 := Snapshot();
      ForgetWallOnGround();
      ghost var s3 := Snapshot();
      ApplyHorizontalMovementInfluences(input.sprint, m, sqrt);
      ghost var s4 := Snapshot();
      FallAndCap(input.jump, dt);
      ghost var s5 := Snapshot();
      IntegratePositionLoop(dt, sqrt);
      ghost var s6 := Snapshot();
      CheckCollisions();
      ghost var s7 := Snapshot();
      FallAndCap(input.jump, dt);
      MoveSteps(s0, s1, s2, s3, s4, s5, s6, s7, Snapshot(), input, world.value, dt, sqrt);
    }

    /** `preformTick`: probe contacts, then move on the controller's input.
        The tick keeps the class invariant and the dormant wall jump. */
    method PreformTick(input: Input, dt: real, sqrt: real -> real)
      requires world.Some? && mesh.Some? && IsSqrt(sqrt)
      modifies this
      ensures mesh == old(mesh) && world == old(world)
      ensures Snapshot() == Tick(old(Snapshot()), input, world.value, dt, sqrt)
      ensures old(Valid()) ==> Valid()
      ensures Dormant(old(Snapshot())) ==> Dormant(Snapshot())
      ensures Abs(velocity.y) <= MaxVerticalSpeed
    {
      CheckCollisions();
      Move(input, dt, sqrt);
    }
  }
}
