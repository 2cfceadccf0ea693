/** One tick of character movement as a function on the character's state:
    the contact probe, input acceleration, the jump decisions, the speed caps,
    gravity and position integration, in the order `preformTick` and `move`
    run them. */
module Motion {
  import opened Wrappers
  import opened Vectors
  import opened Surfaces
  import opened Kinematics

  /** The movement state of a character. `lastWall` is the mesh the last wall
      jump pushed off from (null in the source when absent). */
  datatype State = State(
    position: Vec3,
    velocity: Vec3,
    rayOfView: Vec3,
    contact: Contacts,
    jumpState: bool,
    canWallJumpNow: bool,
    lastWall: Option<MeshId>,
    height: real)

  /** What the input controller reports after its own tick: the normalized
      horizontal movement (x, y), whether jump and sprint are held. */
  datatype Input = Input(moveX: real, moveY: real, jump: bool, sprint: bool)

  /** `isCharacterOnWorldSurface.get(key)`: a missing entry reads as false. */
  predicate OnSurface(c: Contacts, t: Surface)
    ensures t !in c ==> !OnSurface(c, t)
    ensures t in c ==> (OnSurface(c, t) <==> c[t])
  {
    t in c && c[t]
  }

  predicate Grounded(s: State) { OnSurface(s.contact, Ground) }

  predicate OnWall(s: State) { OnSurface(s.contact, Wall) }

  /** A fresh character at `position`: at rest, looking along +z, touching
      nothing, jump released, wall jump armed and no wall remembered. */
  function Initial(position: Vec3): (s: State)
    ensures Dormant(s) && Total(s.contact) && !Grounded(s) && !OnWall(s)
    ensures s.velocity == Zero && s.position == position && !s.jumpState
  {
    State(position, Zero, NormalizeFromLength(Forward, 1.0), NoContact(), false, true, None, DefaultHeight)
  }

  /** The initial ray of view is a unit vector. */
  lemma InitialRayIsUnit(position: Vec3)
    ensures Norm2(Initial(position).rayOfView) == 1.0
  {
    ForwardRayIsUnit(Initial(position).rayOfView);
  }

  lemma ForwardRayIsUnit(r: Vec3)
    requires r == NormalizeFromLength(Forward, 1.0)
    ensures Norm2(r) == 1.0
  {
    UnitForward();
  }

  /** The initial look direction (0, 0, 1); its length is 1, so `normalize()`
      leaves it as it is. */
  const Forward: Vec3 := Vec3(0.0, 0.0, 1.0)

  lemma UnitForward()
    ensures Norm2(Forward) == 1.0 && NormalizeFromLength(Forward, 1.0) == Forward
  {
    assert Sq(0.0) == 0.0 && Sq(1.0) == 1.0;
  }

  /** The initial contact map: neither ground nor wall is touched. */
  function NoContact(): (c: Contacts)
    ensures Total(c) && !OnSurface(c, Ground) && !OnSurface(c, Wall)
  {
    map[Ground := false, Wall := false]
  }

  /** The state in which the wall-jump branch cannot fire: no wall is
      remembered and the wall jump is armed. */
  predicate Dormant(s: State) {
    s.lastWall.None? && s.canWallJumpNow
  }

  /** `checkCollisions`: every registered surface type is probed with the same
      ray, and its contact entry set from whether the ray touches it. */
  function ProbeContacts(s: State, w: World): (r: State)
    ensures r == s.(contact := r.contact)
    ensures Total(s.contact) ==> Total(r.contact)
    ensures forall t :: t in w.collidableTypes ==>
              (OnSurface(r.contact, t) <==> Touches(w.pick(ContactRay(s.position, s.velocity, s.height), t)))
    ensures forall t :: t !in w.collidableTypes ==> OnSurface(r.contact, t) == OnSurface(s.contact, t)
  {
    s.(contact := ProbeAll(s.contact, w.collidableTypes, ContactRay(s.position, s.velocity, s.height), w.pick))
  }

  /** The length of an input (x, z), through the square-root oracle. */
  function InputMagnitude(x: real, z: real, sqrt: real -> real): (r: real)
    requires IsSqrt(sqrt)
    ensures r >= 0.0 && Sq(r) == Magnitude2(x, z)
    ensures r > InputDeadzone ==> x != 0.0 || z != 0.0
  {
    var r := sqrt(Magnitude2(x, z));
    InputOutsideDeadzoneIsNonZero(x, z, r);
    r
  }

  /** `accelerateAndRotateHorizontalComponents(x, z)` without the facing
      rotation: the velocity takes the input impulse and friction, and on the
      ground the ray of view turns towards the input. */
  function Accelerate(s: State, x: real, z: real, sqrt: real -> real): (r: State)
    requires IsSqrt(sqrt)
    ensures r == s.(velocity := r.velocity, rayOfView := r.rayOfView)
    ensures var m := InputMagnitude(x, z, sqrt);
            && r.velocity == AccelerateHorizontal(s.velocity, x, z, m, Grounded(s))
            && r.rayOfView == RayOfViewAfter(s.rayOfView, x, z, m, sqrt(Norm2(InputDirection(x, z, m))), Grounded(s))
    ensures Norm2(s.rayOfView) == 1.0 ==> Norm2(r.rayOfView) == 1.0
  {
    var m := InputMagnitude(x, z, sqrt);
    var d := InputDirection(x, z, m);
    var dlen := sqrt(Norm2(d));
    var o := RayOfViewAfter(s.rayOfView, x, z, m, dlen, Grounded(s));
    RayOfViewKeepsUnit(s.rayOfView, x, z, m, dlen, Grounded(s));
    s.(velocity := AccelerateHorizontal(s.velocity, x, z, m, Grounded(s)), rayOfView := o)
  }

  lemma RayOfViewKeepsUnit(ray: Vec3, x: real, z: real, m: real, dlen: real, grounded: bool)
    requires m > InputDeadzone ==> x != 0.0 || z != 0.0
    requires dlen >= 0.0 && Sq(dlen) == Norm2(InputDirection(x, z, m))
    ensures Norm2(ray) == 1.0 ==> Norm2(RayOfViewAfter(ray, x, z, m, dlen, grounded)) == 1.0
  {
    if m > InputDeadzone && grounded {
      RayOfViewFacesInput(ray, x, z, m, dlen);
    }
  }

  /** `preformJump`: the vertical velocity becomes the jump velocity. */
  function Jump(s: State): (r: State)
    ensures r == s.(velocity := Vec3(s.velocity.x, VerticalJumpVelocity, s.velocity.z))
  {
    s.(velocity := s.velocity.(y := VerticalJumpVelocity))
  }

  /** The ray `preformWallJump` casts along the ray of view, and what it hits
      among the collidables registered as walls (nothing when no walls are
      registered). */
  function WallProbe(s: State, w: World): (hit: Option<Hit>)
    ensures Wall !in w.collidableTypes ==> hit.None?
    ensures Wall in w.collidableTypes ==> hit == w.pick(Ray(s.position, s.rayOfView, s.height / 2.0), Wall)
  {
    if Wall in w.collidableTypes then w.pick(Ray(s.position, s.rayOfView, s.height / 2.0), Wall) else None
  }

  /** Every early return of `preformWallJump` is passed: the ray hits a mesh,
      that mesh is the remembered last wall, and the hit has a normal and a
      point. */
  predicate WallJumpFires(s: State, w: World)
    ensures WallJumpFires(s, w) ==> s.lastWall.Some? && Wall in w.collidableTypes
  {
    var hit := WallProbe(s, w);
    && hit.Some?
    && hit.value.mesh.Some?
    && s.lastWall == hit.value.mesh
    && hit.value.normal.Some?
    && hit.value.point.Some?
  }

  /** `preformWallJump` without the rotation and the debug drawing: on a
      wall jump the velocity is reflected in the wall's normal, then the
      vertical velocity becomes the jump velocity and the wall jump is
      disarmed; on any early return nothing changes. */
  function WallJump(s: State, w: World): (r: State)
    ensures !WallJumpFires(s, w) ==> r == s
    ensures WallJumpFires(s, w) ==>
              var n := WallProbe(s, w).value.normal.value;
              var v := Reflect(s.velocity, n);
              r == s.(velocity := Vec3(v.x, VerticalJumpVelocity, v.z), canWallJumpNow := false)
  {
    var hit := WallProbe(s, w);
    if hit.None? || hit.value.mesh.None? then s
    else if s.lastWall != hit.value.mesh then s
    else if hit.value.normal.None? || hit.value.point.None? then s
    else
      var v := Reflect(s.velocity, hit.value.normal.value);
      s.(velocity := v.(y := VerticalJumpVelocity), canWallJumpNow := false, lastWall := hit.value.mesh)
  }

  /** The wall-jump body needs the picked mesh to equal the remembered wall;
      with no wall remembered it never runs. */
  lemma WallJumpNeedsRememberedWall(s: State, w: World)
    requires s.lastWall.None?
    ensures !WallJumpFires(s, w) && WallJump(s, w) == s
  {
  }

  /** The guard of the wall jump in `move`. */
  predicate WallJumpAllowed(s: State, m: real)
    ensures WallJumpAllowed(s, m) ==> OnWall(s) && !Grounded(s) && s.canWallJumpNow
    ensures WallJumpAllowed(s, m) ==> m > WallJumpInputThreshold
  {
    s.canWallJumpNow && OnWall(s) && !Grounded(s) && m > WallJumpInputThreshold
  }

  /** The jump branch of `move`: releasing jump rearms both jumps; holding it
      jumps from the ground once per press, then tries the wall jump when its
      guard allows. `m` is the input magnitude. */
  function JumpDecisions(s: State, jump: bool, m: real, w: World): (r: State)
    ensures !jump ==> r == s.(jumpState := false, canWallJumpNow := true)
    ensures jump && Grounded(s) && !s.jumpState ==> r == Jump(s).(jumpState := true)
    ensures jump && !(Grounded(s) && !s.jumpState) ==>
              r == if WallJumpAllowed(s, m) then WallJump(s, w) else s
  {
    if !jump then s.(jumpState := false, canWallJumpNow := true)
    else
      var s1 := if Grounded(s) && !s.jumpState then Jump(s).(jumpState := true) else s;
      if WallJumpAllowed(s1, m) then WallJump(s1, w) else s1
  }

  /** Ground contact forgets the last wall. */
  function ForgetWall(s: State): (r: State)
    ensures Grounded(s) ==> r == s.(lastWall := None)
    ensures !Grounded(s) ==> r == s
  {
    if Grounded(s) then s.(lastWall := None) else s
  }

  /** `applyHorizontalMovementInfluences`, with the cap applied as intended
      (see `LimitHorizontal`): the horizontal speed ends within the cap. */
  function CapHorizontal(s: State, sprint: bool, m: real, sqrt: real -> real): (r: State)
    requires IsSqrt(sqrt)
    ensures r == s.(velocity := r.velocity)
    ensures Horizontal2(r.velocity) <= Sq(HorizontalSpeedCap(sprint, Grounded(s), m))
    ensures Horizontal2(s.velocity) <= Sq(HorizontalSpeedCap(sprint, Grounded(s), m)) ==> r == s
  {
    var cap := HorizontalSpeedCap(sprint, Grounded(s), m);
    s.(velocity := LimitHorizontal(s.velocity, cap, sqrt(Norm2(s.velocity))))
  }

  /** `applyGravity` followed by `capYVelocity`: only the vertical velocity
      changes, and it ends within the vertical speed bound. */
  function Fall(s: State, jump: bool, dt: real): (r: State)
    ensures r == s.(velocity := Vec3(s.velocity.x, r.velocity.y, s.velocity.z))
    ensures Abs(r.velocity.y) <= MaxVerticalSpeed
    ensures r.velocity.y == CapVertical(GravityY(s.velocity.y, Grounded(s), GravitationalAcceleration(OnWall(s), jump), dt))
  {
    var g := GravitationalAcceleration(OnWall(s), jump);
    s.(velocity := s.velocity.(y := CapVertical(GravityY(s.velocity.y, Grounded(s), g, dt))))
  }

  /** The position loop of `move`: the displacement is the velocity times dt
      in milliseconds, and each registered surface type in turn snaps or
      advances the position. */
  function Integrate(s: State, w: World, dt: real, sqrt: real -> real): (r: State)
    requires IsSqrt(sqrt)
    ensures r == s.(position := r.position)
    ensures Norm2(Scale(s.velocity, dt / 1000.0)) == 0.0 ==> r == s
  {
    var delta := Scale(s.velocity, dt / 1000.0);
    var len := sqrt(Norm2(delta));
    ZeroLength(len, Norm2(delta));
    s.(position := IntegratePosition(s.position, s.velocity, dt, len, w.collidableTypes, w.pick))
  }

  lemma ZeroLength(len: real, n: real)
    requires len >= 0.0 && Sq(len) == n
    ensures n == 0.0 <==> len == 0.0
  {
    SqZero(len);
  }

  /** `move`: acceleration, the jump decisions, forgetting the wall on the
      ground, the horizontal cap, gravity, position integration, a second
      contact probe and a second round of gravity. */
  function Move(s: State, input: Input, w: World, dt: real, sqrt: real -> real): (r: State)
    requires IsSqrt(sqrt)
    ensures Abs(r.velocity.y) <= MaxVerticalSpeed
    ensures r.height == s.height
    ensures !input.jump ==> !r.jumpState && r.canWallJumpNow
    ensures input.jump && s.jumpState ==> r.jumpState
    ensures Dormant(s) ==> Dormant(r)
    ensures Total(s.contact) ==> Total(r.contact)
    ensures Norm2(s.rayOfView) == 1.0 ==> Norm2(r.rayOfView) == 1.0
  {
    var m := InputMagnitude(input.moveX, input.moveY, sqrt);
    var s1 := Accelerate(s, input.moveX, input.moveY, sqrt);
    var s2 := JumpDecisions(s1, input.jump, m, w);
    JumpKeepsDormant(s1, input.jump, m, w);
    var s3 := ForgetWall(s2);
    var s4 := Fall(CapHorizontal(s3, input.sprint, m, sqrt), input.jump, dt);
    var s5 := ProbeContacts(Integrate(s4, w, dt, sqrt), w);
    Fall(s5, input.jump, dt)
  }

  /** `Move` is its phases run one after another. */
  lemma MoveSteps(s0: State, s1: State, s2: State, s3: State, s4: State, s5: State,
                  s6: State, s7: State, s8: State, input: Input, w: World, dt: real, sqrt: real -> real)
    requires IsSqrt(sqrt)
    requires s1 == Accelerate(s0, input.moveX, input.moveY, sqrt)
    requires s2 == JumpDecisions(s1, input.jump, InputMagnitude(input.moveX, input.moveY, sqrt), w)
    requires s3 == ForgetWall(s2)
    requires s4 == CapHorizontal(s3, input.sprint, InputMagnitude(input.moveX, input.moveY, sqrt), sqrt)
    requires s5 == Fall(s4, input.jump, dt)
    requires s6 == Integrate(s5, w, dt, sqrt)
    requires s7 == ProbeContacts(s6, w)
    requires s8 == Fall(s7, input.jump, dt)
    ensures s8 == Move(s0, input, w, dt, sqrt)
  {
  }

  /** The jump decisions never leave the dormant state, and keep the ray of
      view, contacts and height. */
  lemma JumpKeepsDormant(s: State, jump: bool, m: real, w: World)
    ensures var r := JumpDecisions(s, jump, m, w);
            && (Dormant(s) ==> Dormant(r))
            && r.rayOfView == s.rayOfView && r.contact == s.contact && r.height == s.height
            && (jump && s.jumpState ==> r.jumpState)
  {
    var s1 := if jump && Grounded(s) && !s.jumpState then Jump(s).(jumpState := true) else s;
    if jump && WallJumpAllowed(s1, m) && Dormant(s) {
      WallJumpNeedsRememberedWall(s1, w);
    }
  }

  /** `preformTick`: probe contacts, then move. */
  function Tick(s: State, input: Input, w: World, dt: real, sqrt: real -> real): (r: State)
    requires IsSqrt(sqrt)
    ensures Abs(r.velocity.y) <= MaxVerticalSpeed
    ensures r.height == s.height
    ensures !input.jump ==> !r.jumpState && r.canWallJumpNow
    ensures Dormant(s) ==> Dormant(r)
    ensures Total(s.contact) ==> Total(r.contact)
    ensures Norm2(s.rayOfView) == 1.0 ==> Norm2(r.rayOfView) == 1.0
  {
    Move(ProbeContacts(s, w), input, w, dt, sqrt)
  }

  /** One tick's worth of outside influence: the controller's input, the
      world as it stands during that tick and the tick's length. */
  datatype Step = Step(input: Input, world: World, dt: real)

  /** The state after a run of ticks, one per step; the world and the tick
      length may differ from tick to tick. */
  function Run(s: State, steps: seq<Step>, sqrt: real -> real): State
    requires IsSqrt(sqrt)
    decreases |steps|
  {
    if steps == [] then s
    else
      var last := steps[|steps| - 1];
      Tick(Run(s, steps[..|steps| - 1], sqrt), last.input, last.world, last.dt, sqrt)
  }

  /** Over any run the wall-jump branch stays unreachable, the ray of view
      stays a unit vector and every surface keeps a contact entry. */
  lemma {:induction false} RunInvariant(s: State, steps: seq<Step>, sqrt: real -> real)
    requires IsSqrt(sqrt)
    requires Dormant(s) && Norm2(s.rayOfView) == 1.0 && Total(s.contact)
    ensures var r := Run(s, steps, sqrt);
            Dormant(r) && Norm2(r.rayOfView) == 1.0 && Total(r.contact)
    decreases |steps|
  {
    if steps != [] {
      RunInvariant(s, steps[..|steps| - 1], sqrt);
    }
  }

  /** After at least one tick the vertical speed is within its bound. */
  lemma RunBoundsVerticalSpeed(s: State, steps: seq<Step>, sqrt: real -> real)
    requires IsSqrt(sqrt) && steps != []
    ensures Abs(Run(s, steps, sqrt).velocity.y) <= MaxVerticalSpeed
  {
  }

  /** A held jump does not jump again: once the jump state is set, holding
      jump in the dormant state changes nothing in the jump branch. */
  lemma HeldJumpDoesNotRetrigger(s: State, m: real, w: World)
    requires Dormant(s) && s.jumpState
    ensures JumpDecisions(s, true, m, w) == s
  {
    if WallJumpAllowed(s, m) {
      WallJumpNeedsRememberedWall(s, w);
    }
  }

  /** Pressing jump on the ground sets the vertical velocity to the jump
      velocity and records the press; the horizontal velocity is kept. */
  lemma GroundJumpLaunches(s: State, m: real, w: World)
    requires Grounded(s) && !s.jumpState
    ensures var r := JumpDecisions(s, true, m, w);
            && r.velocity == Vec3(s.velocity.x, VerticalJumpVelocity, s.velocity.z)
            && r.jumpState
            && r.canWallJumpNow == s.canWallJumpNow && r.lastWall == s.lastWall
  {
  }

  /** The wall jump is tried only when jump is held, it is armed, the
      character touches a wall and not the ground, and the input magnitude is
      above the threshold. */
  lemma WallJumpOnlyWhenAllowed(s: State, jump: bool, m: real, w: World)
    requires !(jump && s.canWallJumpNow && OnWall(s) && !Grounded(s) && m > WallJumpInputThreshold)
    ensures var r := JumpDecisions(s, jump, m, w);
            r.velocity == (if jump && Grounded(s) && !s.jumpState then Jump(s).velocity else s.velocity)
            && r.lastWall == s.lastWall
  {
  }
}
