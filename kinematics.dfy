/** The arithmetic of one movement tick: the character's tuning constants and
    the value-level rules for input acceleration, friction, the horizontal and
    vertical speed caps, gravity and position integration. */
module Kinematics {
  import opened Wrappers
  import opened Vectors
  import opened Surfaces

  // Tuning constants of a character.
  const DefaultHeight: real := 2.0
  const MaxHorizontalSpeedNeutral: real := 2.5
  const MaxHorizontalSpeedFull: real := 12.5
  const MaxVerticalSpeed: real := 50.0
  const VerticalJumpVelocity: real := 28.0
  const GroundFriction: real := 0.7
  const WallSlideGravity: real := -83.333
  const HoldingJumpGravity: real := -90.0
  const NormalGravity: real := -100.0

  /** Input magnitudes at or below this are ignored. */
  const InputDeadzone: real := 0.01
  /** A wall jump needs an input magnitude above this. */
  const WallJumpInputThreshold: real := 0.1

  function Abs(t: real): real { if t < 0.0 then -t else t }

  function Sign(t: real): real { if t == 0.0 then 0.0 else if t > 0.0 then 1.0 else -1.0 }

  /** `x ** 2 + z ** 2`, the squared magnitude of a two-axis input. */
  function Magnitude2(x: real, z: real): (q: real)
    ensures q >= 0.0
  {
    SqNonNegative(x);
    SqNonNegative(z);
    Sq(x) + Sq(z)
  }

  /** The getter `characterGravitationalAcceleration`: sliding down a wall
      beats holding jump, which beats the normal pull; every choice pulls down. */
  function GravitationalAcceleration(onWall: bool, jumpHeld: bool): (g: real)
    ensures NormalGravity <= g <= WallSlideGravity < 0.0
    ensures onWall ==> g == WallSlideGravity
    ensures !onWall ==> (g > NormalGravity <==> jumpHeld)
    ensures !onWall && jumpHeld ==> g == HoldingJumpGravity
    ensures !onWall && !jumpHeld ==> g == NormalGravity
  {
    if onWall then WallSlideGravity
    else if jumpHeld then HoldingJumpGravity
    else NormalGravity
  }

  /** The getter `horizontalMovementScaleFactor`: ground traction is five
      times air control. */
  function HorizontalMovementScaleFactor(grounded: bool): (k: real)
    ensures 1.0 <= k <= 5.0
    ensures grounded <==> k == 5.0
    ensures !grounded ==> k == 1.0
  {
    if grounded then 5.0 else 1.0
  }

  /** Outside the deadzone the input is rescaled so that its Manhattan length
      equals its Euclidean length `r`, keeping its direction and quadrant. */
  function RescaleInput(x: real, z: real, r: real): (p: (real, real))
    requires r > InputDeadzone && (x != 0.0 || z != 0.0)
    ensures Abs(p.0) + Abs(p.1) == r
    ensures SameDirection(p.0, p.1, x, z)
  {
    var k := RescaleFactor(x, z, r);
    var p := (x * k, z * k);
    RescaledInput(x, z, k, r, p);
    p
  }

  /** (a, b) is a non-negative multiple of (x, z): parallel to it and in
      the same quadrant. */
  predicate SameDirection(a: real, b: real, x: real, z: real) {
    a * z == b * x && a * x >= 0.0 && b * z >= 0.0
  }

  /** The factor that makes the Manhattan length of (x, z) equal to `r`. */
  function RescaleFactor(x: real, z: real, r: real): (k: real)
    requires r > 0.0 && (x != 0.0 || z != 0.0)
    ensures k > 0.0 && k * (Abs(x) + Abs(z)) == r
  {
    DividedByPositive(r, Abs(x) + Abs(z));
    r / (Abs(x) + Abs(z))
  }

  lemma DividedByPositive(r: real, m: real)
    requires r > 0.0 && m > 0.0
    ensures r / m > 0.0 && (r / m) * m == r
  {
  }

  lemma RescaledInput(x: real, z: real, k: real, r: real, p: (real, real))
    requires k > 0.0 && k * (Abs(x) + Abs(z)) == r
    requires p.0 == x * k && p.1 == z * k
    ensures Abs(p.0) + Abs(p.1) == r
    ensures SameDirection(p.0, p.1, x, z)
  {
    ManhattanScaled(x, z, k, r);
    SignKept(x, k);
    SignKept(z, k);
  }

  /** An input whose magnitude is outside the deadzone is not the zero input. */
  lemma InputOutsideDeadzoneIsNonZero(x: real, z: real, r: real)
    requires Sq(r) == Magnitude2(x, z)
    ensures r > InputDeadzone ==> x != 0.0 || z != 0.0
  {
    if r > InputDeadzone {
      SqPositive(r);
    }
  }

  lemma AbsScale(t: real, k: real)
    requires k >= 0.0
    ensures Abs(t * k) == Abs(t) * k
  {
    if t < 0.0 {
      assert t * k == -((-t) * k);
    }
  }

  lemma ManhattanScaled(x: real, z: real, k: real, r: real)
    requires k > 0.0 && k * (Abs(x) + Abs(z)) == r
    ensures Abs(x * k) + Abs(z * k) == r
  {
    AbsScale(x, k);
    AbsScale(z, k);
    assert Abs(x) * k + Abs(z) * k == k * (Abs(x) + Abs(z));
  }

  lemma SignKept(t: real, k: real)
    requires k >= 0.0
    ensures (t * k) * t >= 0.0
  {
  }

  /** `a` is a non-negative multiple of the two-axis input (x, z) with the
      axes swapped, as the source swaps them: a.x goes with z and a.z with x.
      It lies on the input's line and points the same way, never against it. */
  predicate Aligned(a: Vec3, x: real, z: real) {
    a.x * x == a.z * z && a.x * z >= 0.0 && a.z * x >= 0.0
  }

  /** The Manhattan length of the horizontal part of `a`. */
  function Manhattan(a: Vec3): (m: real)
    ensures m >= 0.0
  {
    Abs(a.x) + Abs(a.z)
  }

  /** The input contribution of `accelerateAndRotateHorizontalComponents`, with
      the axes swapped as the source does: (z', 0, x') for the rescaled input
      (x', z'), and nothing at all inside the deadzone. */
  function InputDirection(x: real, z: real, r: real): (d: Vec3)
    requires r > InputDeadzone ==> x != 0.0 || z != 0.0
    ensures d.y == 0.0
    ensures r <= InputDeadzone ==> d == Zero
  {
    if r <= InputDeadzone then Zero
    else
      var p := RescaleInput(x, z, r);
      Vec3(p.1, 0.0, p.0)
  }

  /** Outside the deadzone the input contribution has Manhattan length equal
      to the input magnitude; it always lies along the swapped input. */
  lemma InputDirectionShape(x: real, z: real, r: real, d: Vec3)
    requires r > InputDeadzone ==> x != 0.0 || z != 0.0
    requires d == InputDirection(x, z, r)
    ensures r > InputDeadzone ==> Manhattan(d) == r
    ensures Aligned(d, x, z)
  {
    if r > InputDeadzone {
      var p := RescaleInput(x, z, r);
      assert d == Vec3(p.1, 0.0, p.0);
    }
  }

  /** Ground friction scales the horizontal components. */
  function Friction(v: Vec3): Vec3 {
    Vec3(GroundFriction * v.x, v.y, GroundFriction * v.z)
  }

  /** The factor friction applies to the horizontal velocity in one tick. */
  function FrictionFactor(grounded: bool): real {
    if grounded then GroundFriction else 1.0
  }

  /** The velocity `v` with `k` times the horizontal part of `d` added. */
  function Pushed(v: Vec3, d: Vec3, k: real): Vec3 {
    Vec3(v.x + k * d.x, v.y, v.z + k * d.z)
  }

  /** The velocity `v` plus the swapped input `d` times the scale factor,
      then damped by friction when grounded. */
  function Accelerated(v: Vec3, d: Vec3, grounded: bool): Vec3 {
    var u := Pushed(v, d, HorizontalMovementScaleFactor(grounded));
    if grounded then Friction(u) else u
  }

  /** The velocity after `accelerateAndRotateHorizontalComponents`: the
      rescaled input, times the scale factor, is added with axes swapped, then
      friction applies whenever grounded. The vertical part never changes;
      inside the deadzone only friction acts. */
  function AccelerateHorizontal(v: Vec3, x: real, z: real, r: real, grounded: bool): (w: Vec3)
    requires r > InputDeadzone ==> x != 0.0 || z != 0.0
    ensures w.y == v.y
    ensures r <= InputDeadzone ==> w == if grounded then Friction(v) else v
  {
    Accelerated(v, InputDirection(x, z, r), grounded)
  }

  /** The two steps of the source, the input impulse outside the deadzone
      and then friction on the ground, compose to `AccelerateHorizontal`. */
  lemma AccelerationSteps(v: Vec3, u: Vec3, w: Vec3, x: real, z: real, r: real, grounded: bool)
    requires r > InputDeadzone ==> x != 0.0 || z != 0.0
    requires u == if r > InputDeadzone
                  then Pushed(v, InputDirection(x, z, r), HorizontalMovementScaleFactor(grounded))
                  else v
    requires w == if grounded then Friction(u) else u
    ensures w == AccelerateHorizontal(v, x, z, r, grounded)
  {
  }

  /** The stick fully along x (input (x, z) = (1, 0), magnitude 1) pushes
      along the z axis of the velocity: the source swaps the axes. */
  lemma InputAlongXPushesAlongZ(x: real, z: real, d: Vec3)
    requires x == 1.0 && z == 0.0 && d == InputDirection(x, z, x)
    ensures d == Vec3(0.0, 0.0, 1.0)
  {
    UnitRescale(x, z, RescaleInput(x, z, x));
  }

  lemma UnitRescale(x: real, z: real, p: (real, real))
    requires x == 1.0 && z == 0.0 && p == RescaleInput(x, z, x)
    ensures p == (1.0, 0.0)
  {
    assert RescaleFactor(x, z, x) == 1.0;
  }

  /** Standing still on the ground, that push gives velocity 5 along z, of
      which friction keeps 0.7: the velocity becomes (0, 0, 3.5). */
  lemma GroundedPushAlongZ(d: Vec3)
    requires d == Vec3(0.0, 0.0, 1.0)
    ensures Accelerated(Zero, d, true) == Vec3(0.0, 0.0, 3.5)
  {
  }

  /** What acceleration adds to the horizontal velocity beyond friction. */
  function Impulse(v: Vec3, w: Vec3, grounded: bool): Vec3 {
    var f := FrictionFactor(grounded);
    Vec3(w.x - f * v.x, 0.0, w.z - f * v.z)
  }

  /** The horizontal change beyond friction is the input contribution `d`
      scaled by the friction and scale factors: its Manhattan length is theirs
      times that of `d`, and when `d` lies along the swapped input so does the
      change. With `InputDirectionShape` (the contribution has the input
      magnitude as Manhattan length) this is the impulse of
      `AccelerateHorizontal`, which is `Accelerated` of `InputDirection`. */
  lemma AccelerationImpulse(v: Vec3, d: Vec3, w: Vec3, grounded: bool, x: real, z: real)
    requires w == Accelerated(v, d, grounded)
    requires Aligned(d, x, z)
    ensures var c := FrictionFactor(grounded) * HorizontalMovementScaleFactor(grounded);
            var i := Impulse(v, w, grounded);
            Manhattan(i) == c * Manhattan(d) && Aligned(i, x, z)
  {
    var c := FrictionFactor(grounded) * HorizontalMovementScaleFactor(grounded);
    ImpulseIsScaledInput(v, d, w, grounded);
    ScaledImpulse(d, Impulse(v, w, grounded), c, x, z);
  }

  lemma ImpulseIsScaledInput(v: Vec3, d: Vec3, w: Vec3, grounded: bool)
    requires w == Accelerated(v, d, grounded)
    ensures var c := FrictionFactor(grounded) * HorizontalMovementScaleFactor(grounded);
            var i := Impulse(v, w, grounded);
            c >= 0.0 && i.x == c * d.x && i.z == c * d.z
  {
  }

  lemma ScaledImpulse(d: Vec3, i: Vec3, c: real, x: real, z: real)
    requires c >= 0.0 && Aligned(d, x, z) && i.x == c * d.x && i.z == c * d.z
    ensures Manhattan(i) == c * Manhattan(d)
    ensures Aligned(i, x, z)
  {
    ManhattanScales(d.x, d.z, c);
    CrossScales(d.x, d.z, c, x, z);
    SenseScales(d.x, z, c);
    SenseScales(d.z, x, c);
  }

  lemma SenseScales(a: real, t: real, c: real)
    requires c >= 0.0 && a * t >= 0.0
    ensures (c * a) * t >= 0.0
  {
    assert (c * a) * t == c * (a * t);
  }

  lemma ManhattanScales(a: real, b: real, c: real)
    requires c >= 0.0
    ensures Abs(c * a) + Abs(c * b) == c * (Abs(a) + Abs(b))
  {
    AbsScale(a, c);
    AbsScale(b, c);
  }

  lemma CrossScales(a: real, b: real, c: real, x: real, z: real)
    requires a * x == b * z
    ensures (c * a) * x == (c * b) * z
  {
    assert (c * a) * x == c * (a * x);
    assert (c * b) * z == c * (b * z);
  }

  /** The ray of view after `accelerateAndRotateHorizontalComponents`: when
      grounded and outside the deadzone it becomes the normalized swapped input
      direction, which is horizontal; otherwise it is kept. `dlen` is the
      length of the swapped input. */
  function RayOfViewAfter(ray: Vec3, x: real, z: real, r: real, dlen: real, grounded: bool): (o: Vec3)
    requires r > InputDeadzone ==> x != 0.0 || z != 0.0
    ensures r > InputDeadzone && grounded ==> o.y == 0.0
    ensures r <= InputDeadzone || !grounded ==> o == ray
  {
    if r > InputDeadzone && grounded then NormalizeFromLength(InputDirection(x, z, r), dlen) else ray
  }

  /** The new ray of view is a unit vector pointing along the swapped input. */
  lemma RayOfViewFacesInput(ray: Vec3, x: real, z: real, r: real, dlen: real)
    requires r > InputDeadzone && (x != 0.0 || z != 0.0)
    requires dlen >= 0.0 && Sq(dlen) == Norm2(InputDirection(x, z, r))
    ensures var o := RayOfViewAfter(ray, x, z, r, dlen, true);
            Norm2(o) == 1.0 && Aligned(o, x, z)
  {
    var d := InputDirection(x, z, r);
    InputDirectionShape(x, z, r, d);
    NormalizedDirection(d, NormalizeFromLength(d, dlen), x, z, r, dlen);
  }

  lemma NormalizedDirection(d: Vec3, o: Vec3, x: real, z: real, r: real, dlen: real)
    requires r > 0.0 && Manhattan(d) == r && Aligned(d, x, z)
    requires dlen >= 0.0 && Sq(dlen) == Norm2(d) && o == NormalizeFromLength(d, dlen)
    ensures Norm2(o) == 1.0 && Aligned(o, x, z)
  {
    NonZeroDirection(d, r);
    Norm2Positive(d);
    PositiveLength(dlen, Norm2(d));
    NormalizeIsUnit(d, dlen);
    UnscaledDirection(o, dlen, d, x, z);
  }

  lemma NonZeroDirection(d: Vec3, r: real)
    requires r > 0.0 && Manhattan(d) == r
    ensures d.x != 0.0 || d.z != 0.0
  {
  }

  lemma UnscaledDirection(o: Vec3, c: real, d: Vec3, x: real, z: real)
    requires c > 0.0 && Scale(o, c) == d && Aligned(d, x, z)
    ensures Aligned(o, x, z)
  {
    assert (c * o.x) * x == (c * o.z) * z;
    assert c * (o.x * x) == c * (o.z * z);
    SenseUnscaled(o.x, z, c);
    SenseUnscaled(o.z, x, c);
  }

  lemma SenseUnscaled(a: real, t: real, c: real)
    requires c > 0.0 && (c * a) * t >= 0.0
    ensures a * t >= 0.0
  {
    assert (c * a) * t == c * (a * t);
    if a * t < 0.0 {
      MulStrict(c, a * t, 0.0);
      assert false;
    }
  }

  lemma PositiveLength(len: real, n: real)
    requires len >= 0.0 && Sq(len) == n && n > 0.0
    ensures len > 0.0
  {
    if len == 0.0 {
      assert false;
    }
  }

  /** The `proportionalityConstant` of `applyHorizontalMovementInfluences`. */
  function SprintFactor(sprint: bool, grounded: bool): (c: real)
    ensures 1.0 <= c <= 1.3
    ensures c > 1.0 <==> sprint
    ensures sprint ==> (c == 1.3 <==> grounded)
    ensures sprint && !grounded ==> c == 1.2
    ensures !sprint ==> c == 1.0
  {
    if sprint && grounded then 1.3
    else if sprint && !grounded then 1.2
    else 1.0
  }

  /** The horizontal speed cap: the neutral and fully-active caps interpolated
      by the input magnitude `m`, times the sprint factor. */
  function HorizontalSpeedCap(sprint: bool, grounded: bool, m: real): (cap: real)
    ensures 0.0 <= m <= 1.0 ==>
              SprintFactor(sprint, grounded) * MaxHorizontalSpeedNeutral <= cap
              <= SprintFactor(sprint, grounded) * MaxHorizontalSpeedFull
    ensures m == 0.0 ==> cap == SprintFactor(sprint, grounded) * MaxHorizontalSpeedNeutral
    ensures m == 1.0 ==> cap == SprintFactor(sprint, grounded) * MaxHorizontalSpeedFull
  {
    var c := SprintFactor(sprint, grounded);
    var blend := MaxHorizontalSpeedNeutral * (1.0 - m) + MaxHorizontalSpeedFull * m;
    assert 0.0 <= m <= 1.0 ==> MaxHorizontalSpeedNeutral <= blend <= MaxHorizontalSpeedFull;
    c * blend
  }

  /** The horizontal speed cap with its rescaling done as intended: when the
      horizontal speed exceeds `cap`, the whole velocity (vertical part
      included) is rescaled to length `cap`; `len` is the velocity's length. */
  function LimitHorizontal(v: Vec3, cap: real, len: real): (w: Vec3)
    requires len >= 0.0 && Sq(len) == Norm2(v)
    ensures Horizontal2(w) <= Sq(cap)
    ensures Horizontal2(v) <= Sq(cap) ==> w == v
    ensures Horizontal2(v) > Sq(cap) ==> Norm2(w) == Sq(cap)
    ensures Horizontal2(v) > Sq(cap) && cap >= 0.0 ==> exists k: real :: k >= 0.0 && w == Scale(v, k)
  {
    if Horizontal2(v) > Sq(cap) then
      SqNonNegative(cap);
      PositiveLength(len, Norm2(v));
      var k := cap / len;
      RescaledToLength(v, cap, len);
      assert cap >= 0.0 ==> k >= 0.0;
      Scale(v, k)
    else v
  }

  lemma RescaledToLength(v: Vec3, cap: real, len: real)
    requires len > 0.0 && Sq(len) == Norm2(v)
    ensures Norm2(Scale(v, cap / len)) == Sq(cap)
    ensures Horizontal2(Scale(v, cap / len)) <= Sq(cap)
  {
    var k := cap / len;
    ScaleNorm2(v, k);
    SqProduct(k, len);
    assert k * len == cap;
    SqNonNegative(k);
    MulMonotone(Sq(k), Horizontal2(v), Norm2(v));
  }

  lemma MulMonotone(k: real, a: real, b: real)
    requires k >= 0.0 && a <= b
    ensures k * a <= k * b
  {
    assert k * b - k * a == k * (b - a);
  }

  /** The horizontal speed cap as the source writes it: the engine's
      `normalizeFromLength(cap)` divides the velocity by `cap` (and does
      nothing when `cap` is 0 or 1) instead of rescaling it to length `cap`. */
  function LimitHorizontalAsWritten(v: Vec3, cap: real): (w: Vec3)
    ensures Horizontal2(v) <= Sq(cap) ==> w == v
    ensures Horizontal2(v) > Sq(cap) && cap != 0.0 ==> Scale(w, cap) == v
  {
    if Horizontal2(v) > Sq(cap) then NormalizeFromLength(v, cap) else v
  }

  /** Above a cap greater than 1, the as-written limit fails whenever the
      horizontal speed exceeds the square of the cap: dividing by the cap
      leaves the speed above the cap. */
  lemma AsWrittenCapOvershoots(v: Vec3, cap: real)
    requires cap > 1.0 && Horizontal2(v) > Sq(cap) * Sq(cap)
    ensures Horizontal2(LimitHorizontalAsWritten(v, cap)) > Sq(cap)
  {
    AboveSquareAboveCap(Horizontal2(v), cap);
    AsWrittenDivides(v, cap);
    DividedStillAbove(LimitHorizontalAsWritten(v, cap), v, cap);
  }

  lemma DividedStillAbove(w: Vec3, v: Vec3, cap: real)
    requires cap > 1.0 && Horizontal2(v) > Sq(cap) * Sq(cap) && w == Scale(v, 1.0 / cap)
    ensures Horizontal2(w) > Sq(cap)
  {
    ScaleNorm2(v, 1.0 / cap);
    InverseSquare(cap);
    ShrunkStillAbove(Sq(1.0 / cap), Sq(cap), Horizontal2(v));
  }

  lemma AboveSquareAboveCap(h: real, c: real)
    requires c > 1.0 && h > Sq(c) * Sq(c)
    ensures h > Sq(c)
  {
    SqMonotone(1.0, c);
    MulStrict(Sq(c), 1.0, Sq(c));
  }

  lemma AsWrittenDivides(v: Vec3, cap: real)
    requires cap > 1.0 && Horizontal2(v) > Sq(cap)
    ensures LimitHorizontalAsWritten(v, cap) == Scale(v, 1.0 / cap)
  {
  }

  lemma InverseSquare(c: real)
    requires c != 0.0
    ensures Sq(1.0 / c) > 0.0 && Sq(1.0 / c) * Sq(c) == 1.0
  {
    SqProduct(1.0 / c, c);
    assert (1.0 / c) * c == 1.0;
    SqPositive(1.0 / c);
  }

  lemma ShrunkStillAbove(q: real, s: real, h: real)
    requires q > 0.0 && q * s == 1.0 && h > s * s
    ensures q * h > s
  {
    MulStrict(q, s * s, h);
    assert q * (s * s) == (q * s) * s;
  }

  /** An input that shows it: at the neutral cap 2.5 and speed 20 along x,
      one application leaves speed 8, still above the cap. */
  lemma AsWrittenCapExceeded()
    ensures Horizontal2(LimitHorizontalAsWritten(Vec3(20.0, 0.0, 0.0), 2.5)) > Sq(2.5)
  {
    var v := Vec3(20.0, 0.0, 0.0);
    assert Horizontal2(v) == 400.0 && Sq(2.5) == 6.25;
    AsWrittenCapOvershoots(v, 2.5);
  }

  /** On the same input the intended rescaling leaves exactly speed 2.5. */
  lemma IntendedCapMet()
    ensures LimitHorizontal(Vec3(20.0, 0.0, 0.0), 2.5, 20.0) == Vec3(2.5, 0.0, 0.0)
  {
    var v := Vec3(20.0, 0.0, 0.0);
    assert Norm2(v) == 400.0 && Sq(20.0) == 400.0;
    assert Horizontal2(v) == 400.0 && Sq(2.5) == 6.25;
    assert Scale(v, 2.5 / 20.0) == Vec3(2.5, 0.0, 0.0);
  }

  /** `applyGravity` on the vertical velocity: airborne, half a gravity step is
      added (dt in milliseconds); grounded, a downward velocity is zeroed and an
      upward one kept. */
  function GravityY(vy: real, grounded: bool, g: real, dt: real): (r: real)
    ensures !grounded ==> r == vy + 0.5 * g * (dt / 1000.0)
    ensures !grounded && g <= 0.0 && dt >= 0.0 ==> r <= vy
    ensures grounded ==> r >= 0.0 && (vy >= 0.0 ==> r == vy)
    ensures grounded && vy < 0.0 ==> r == 0.0
  {
    var y := if !grounded then vy + 0.5 * g * (dt / 1000.0) else vy;
    if grounded && y < 0.0 then
      0.0
    else
      assert !grounded && g <= 0.0 && dt >= 0.0 ==> 0.5 * g * (dt / 1000.0) <= 0.0;
      y
  }

  /** `capYVelocity`: the vertical speed is clamped to the maximum, keeping
      its sign; a speed within the bound is left alone. */
  function CapVertical(vy: real): (r: real)
    ensures Abs(r) <= MaxVerticalSpeed
    ensures Abs(vy) <= MaxVerticalSpeed ==> r == vy
    ensures Abs(vy) > MaxVerticalSpeed ==> Abs(r) == MaxVerticalSpeed && r * vy > 0.0
  {
    if Abs(vy) > MaxVerticalSpeed then MaxVerticalSpeed * Sign(vy) else vy
  }

  /** One step of the position loop of `move`: snap to the point the ray
      along the displacement hits among the collidables of type `s`, or
      advance by the whole displacement when it hits nothing. */
  function AdvanceOrSnap(p: Vec3, delta: Vec3, len: real, s: Surface,
                         pick: (Ray, Surface) -> Option<Hit>): (q: Vec3)
    ensures Touches(pick(Ray(p, delta, len), s)) ==> Some(q) == pick(Ray(p, delta, len), s).value.point
    ensures !Touches(pick(Ray(p, delta, len), s)) ==> q == Add(p, delta)
  {
    var hit := pick(Ray(p, delta, len), s);
    if Touches(hit) then hit.value.point.value else Add(p, delta)
  }

  /** The position after the loop over the collidable types, in order. */
  function PositionAfter(p: Vec3, delta: Vec3, len: real, types: seq<Surface>,
                         pick: (Ray, Surface) -> Option<Hit>): (q: Vec3)
    ensures types == [] ==> q == p
    decreases |types|
  {
    if types == [] then p
    else AdvanceOrSnap(PositionAfter(p, delta, len, types[..|types| - 1], pick),
                       delta, len, types[|types| - 1], pick)
  }

  /** No ray ever hits: the position advances by the displacement once per
      collidable type. */
  lemma {:induction false} PositionAfterWithoutHits(p: Vec3, delta: Vec3, len: real, types: seq<Surface>,
                                                    pick: (Ray, Surface) -> Option<Hit>)
    requires forall q: Vec3, s: Surface :: !Touches(pick(Ray(q, delta, len), s))
    ensures PositionAfter(p, delta, len, types, pick) == Add(p, Scale(delta, |types| as real))
    decreases |types|
  {
    if types != [] {
      var n := |types| - 1;
      PositionAfterWithoutHits(p, delta, len, types[..n], pick);
      var q := PositionAfter(p, delta, len, types[..n], pick);
      assert q == Add(p, Scale(delta, n as real));
      assert !Touches(pick(Ray(q, delta, len), types[n]));
      assert (n as real) * delta.x + delta.x == (n + 1) as real * delta.x;
      assert (n as real) * delta.y + delta.y == (n + 1) as real * delta.y;
      assert (n as real) * delta.z + delta.z == (n + 1) as real * delta.z;
    }
  }

  /** The last ray decides: when it hits, the final position is exactly its
      hit point, not the advanced position. */
  lemma {:induction false} PositionAfterSnapsToLastHit(p: Vec3, delta: Vec3, len: real, types: seq<Surface>,
                                                       pick: (Ray, Surface) -> Option<Hit>)
    requires types != []
    requires Touches(pick(Ray(PositionAfter(p, delta, len, types[..|types| - 1], pick), delta, len), types[|types| - 1]))
    ensures Some(PositionAfter(p, delta, len, types, pick))
            == pick(Ray(PositionAfter(p, delta, len, types[..|types| - 1], pick), delta, len), types[|types| - 1]).value.point
  {
  }

  /** Position integration of `move`: the displacement is the velocity times
      dt (in milliseconds); with a zero-length displacement nothing moves. */
  function IntegratePosition(p: Vec3, v: Vec3, dt: real, len: real, types: seq<Surface>,
                             pick: (Ray, Surface) -> Option<Hit>): (q: Vec3)
    requires len >= 0.0 && Sq(len) == Norm2(Scale(v, dt / 1000.0))
    ensures len == 0.0 || types == [] ==> q == p
    ensures len > 0.0 ==> q == PositionAfter(p, Scale(v, dt / 1000.0), len, types, pick)
  {
    if len > 0.0 then PositionAfter(p, Scale(v, dt / 1000.0), len, types, pick) else p
  }
}
