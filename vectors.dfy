/** Three-dimensional vectors over the reals, standing in for the engine's
    floating-point Vector3, and the few operations the character uses on them. */
module Vectors {

  datatype Vec3 = Vec3(x: real, y: real, z: real)

  const Zero: Vec3 := Vec3(0.0, 0.0, 0.0)

  /** The engine's Vector3.Down(). */
  const Down: Vec3 := Vec3(0.0, -1.0, 0.0)

  function Add(a: Vec3, b: Vec3): Vec3 { Vec3(a.x + b.x, a.y + b.y, a.z + b.z) }

  function Sub(a: Vec3, b: Vec3): Vec3 { Vec3(a.x - b.x, a.y - b.y, a.z - b.z) }

  function Scale(a: Vec3, k: real): Vec3 { Vec3(k * a.x, k * a.y, k * a.z) }

  function Dot(a: Vec3, b: Vec3): real { a.x * b.x + a.y * b.y + a.z * b.z }

  /** The square of a real. Squares are kept behind this function so that
      the facts about them come from the small lemmas below. */
  function Sq(t: real): real { t * t }

  lemma SqNonNegative(t: real)
    ensures Sq(t) >= 0.0
  {
    if t != 0.0 {
      SqPositive(t);
    }
  }

  lemma SqPositive(t: real)
    requires t != 0.0
    ensures Sq(t) > 0.0
  {
    if t > 0.0 {
      calc { Sq(t); == t * t; > 0.0; }
    } else {
      calc { Sq(t); == (-t) * (-t); > 0.0; }
    }
  }

  /** A square is non-negative, and zero exactly at zero. */
  lemma SqZero(t: real)
    ensures Sq(t) >= 0.0
    ensures Sq(t) == 0.0 <==> t == 0.0
  {
    SqNonNegative(t);
    if t != 0.0 {
      SqPositive(t);
    }
  }

  lemma SqProduct(a: real, b: real)
    ensures Sq(a * b) == Sq(a) * Sq(b)
  {
    assert (a * b) * (a * b) == (a * a) * (b * b);
  }

  lemma SqMonotone(a: real, b: real)
    requires 0.0 <= a < b
    ensures Sq(a) < Sq(b)
  {
    MulStrict(a, a, b);
    MulStrict(b, a, b);
    calc {
      Sq(a);
    ==
      a * a;
    <=
      a * b;
    ==
      b * a;
    <
      b * b;
    ==
      Sq(b);
    }
  }

  lemma MulStrict(k: real, a: real, b: real)
    requires k >= 0.0 && a < b
    ensures k * a <= k * b
    ensures k > 0.0 ==> k * a < k * b
  {
    assert k * b - k * a == k * (b - a);
  }

  /** The squared length, `length() ** 2`. */
  function Norm2(a: Vec3): (n: real)
    ensures n >= 0.0
  {
    SqNonNegative(a.x);
    SqNonNegative(a.y);
    SqNonNegative(a.z);
    Sq(a.x) + Sq(a.y) + Sq(a.z)
  }

  /** The squared length of the horizontal (x, z) part, `length() ** 2 - y ** 2`. */
  function Horizontal2(a: Vec3): (h: real)
    ensures 0.0 <= h <= Norm2(a)
  {
    SqNonNegative(a.x);
    SqNonNegative(a.y);
    SqNonNegative(a.z);
    Sq(a.x) + Sq(a.z)
  }

  /** A vector with a non-zero component has a positive length. */
  lemma Norm2Positive(a: Vec3)
    requires a.x != 0.0 || a.y != 0.0 || a.z != 0.0
    ensures Norm2(a) > 0.0
  {
    SqNonNegative(a.x);
    SqNonNegative(a.y);
    SqNonNegative(a.z);
    if a.x != 0.0 {
      SqPositive(a.x);
    } else if a.y != 0.0 {
      SqPositive(a.y);
    } else {
      SqPositive(a.z);
    }
  }

  lemma SubNorm2(a: Vec3, b: Vec3)
    ensures Norm2(Sub(a, b)) == Norm2(a) - 2.0 * Dot(a, b) + Norm2(b)
  {
    assert Sq(a.x - b.x) == Sq(a.x) - 2.0 * (a.x * b.x) + Sq(b.x);
    assert Sq(a.y - b.y) == Sq(a.y) - 2.0 * (a.y * b.y) + Sq(b.y);
    assert Sq(a.z - b.z) == Sq(a.z) - 2.0 * (a.z * b.z) + Sq(b.z);
  }

  lemma DotScale(a: Vec3, b: Vec3, k: real)
    ensures Dot(a, Scale(b, k)) == k * Dot(a, b)
  {
    assert a.x * (k * b.x) == k * (a.x * b.x);
    assert a.y * (k * b.y) == k * (a.y * b.y);
    assert a.z * (k * b.z) == k * (a.z * b.z);
  }

  /** `sqrt` behaves as the square root on the non-negative reals (Math.sqrt). */
  ghost predicate IsSqrt(sqrt: real -> real) {
    forall q: real :: 0.0 <= q ==> 0.0 <= sqrt(q) && Sq(sqrt(q)) == q
  }

  /** The engine's `normalizeFromLength(len)`: it divides the vector by `len`,
      taking `len` to be the vector's current length, and leaves it alone when
      `len` is 0 or 1. The engine's `normalize()` is this applied to `length()`. */
  function NormalizeFromLength(a: Vec3, len: real): (r: Vec3)
    ensures len == 0.0 || len == 1.0 ==> r == a
    ensures len != 0.0 ==> Scale(r, len) == a
  {
    if len == 0.0 || len == 1.0 then a else Scale(a, 1.0 / len)
  }

  /** `normalize()` yields a unit vector with the direction of a non-zero input. */
  lemma NormalizeIsUnit(a: Vec3, len: real)
    requires len > 0.0 && Sq(len) == Norm2(a)
    ensures Norm2(NormalizeFromLength(a, len)) == 1.0
    ensures Scale(NormalizeFromLength(a, len), len) == a
  {
    if len != 1.0 {
      InverseTimes(len);
      UnitFromScale(a, NormalizeFromLength(a, len), 1.0 / len, len);
    }
  }

  lemma InverseTimes(c: real)
    requires c != 0.0
    ensures (1.0 / c) * c == 1.0
  {
  }

  lemma UnitFromScale(a: Vec3, r: Vec3, k: real, len: real)
    requires r == Scale(a, k) && k * len == 1.0 && Sq(len) == Norm2(a)
    ensures Norm2(r) == 1.0
  {
    ScaleNorm2(a, k);
    SqProduct(k, len);
  }

  lemma ScaleNorm2(a: Vec3, k: real)
    ensures Norm2(Scale(a, k)) == Sq(k) * Norm2(a)
    ensures Horizontal2(Scale(a, k)) == Sq(k) * Horizontal2(a)
  {
    ScaledComponents(a, Scale(a, k), k);
  }

  lemma ScaledComponents(a: Vec3, s: Vec3, k: real)
    requires s.x == k * a.x && s.y == k * a.y && s.z == k * a.z
    ensures Norm2(s) == Sq(k) * Norm2(a)
    ensures Horizontal2(s) == Sq(k) * Horizontal2(a)
  {
    SqProduct(k, a.x);
    SqProduct(k, a.y);
    SqProduct(k, a.z);
  }

  /** Reflection of `v` in the plane with normal `n`: `v - 2 (v . n) n`. */
  function Reflect(v: Vec3, n: Vec3): (r: Vec3)
    ensures Dot(r, n) == Dot(v, n) * (1.0 - 2.0 * Norm2(n))
  {
    var d := Dot(v, n);
    var r := Sub(v, Scale(n, 2.0 * d));
    ReflectedDot(v, n, r, d);
    r
  }

  lemma ReflectedDot(v: Vec3, n: Vec3, r: Vec3, d: real)
    requires d == Dot(v, n)
    requires r.x == v.x - (2.0 * d) * n.x && r.y == v.y - (2.0 * d) * n.y && r.z == v.z - (2.0 * d) * n.z
    ensures Dot(r, n) == d * (1.0 - 2.0 * Norm2(n))
  {
    assert Dot(r, n) == d - 2.0 * d * Dot(n, n);
  }

  /** The reflection keeps the part of `v` along the wall: against every
      direction `t` in the plane of the wall it has the same component as `v`.
      With `Reflect`'s own contract (the normal part reverses for a unit
      normal) this pins the reflection down. */
  lemma ReflectKeepsTangent(v: Vec3, n: Vec3, t: Vec3)
    requires Dot(t, n) == 0.0
    ensures Dot(Reflect(v, n), t) == Dot(v, t)
  {
    var k := 2.0 * Dot(v, n);
    var s := Scale(n, k);
    DotScale(t, n, k);
    assert Dot(t, s) == 0.0;
    assert Dot(Sub(v, s), t) == Dot(v, t) - Dot(t, s);
  }

  /** For a unit normal the reflection keeps the speed ... */
  lemma ReflectIsometry(v: Vec3, n: Vec3)
    requires Norm2(n) == 1.0
    ensures Norm2(Reflect(v, n)) == Norm2(v)
  {
    var d := Dot(v, n);
    var k := 2.0 * d;
    var s := Scale(n, k);
    DotScale(v, n, k);
    ScaleNorm2(n, k);
    SubNorm2(v, s);
    assert Norm2(s) == Sq(k);
    assert 2.0 * Dot(v, s) == Sq(k);
  }

  /** ... and reflecting twice in the same wall gives the velocity back. */
  lemma ReflectInvolution(v: Vec3, n: Vec3)
    requires Norm2(n) == 1.0
    ensures Reflect(Reflect(v, n), n) == v
  {
    var r := Reflect(v, n);
    assert Dot(r, n) == -Dot(v, n);
  }
}
