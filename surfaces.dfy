/** Surface types, the engine's ray query as seen by the character, and the
    contact probe that fills the character's surface-contact map. */
module Surfaces {
  import opened Wrappers
  import opened Vectors

  /** The surface types the world registers collidables under. */
  datatype Surface = Ground | Wall

  /** Identity of a picked mesh; meshes are compared by identity. */
  type MeshId = nat

  /** A ray from `origin` along `direction`, reaching `length`. */
  datatype Ray = Ray(origin: Vec3, direction: Vec3, length: real)

  /** A picking result: the picked point, the picked mesh and the world-space
      normal at the hit, each of which the engine may leave null. */
  datatype Hit = Hit(point: Option<Vec3>, mesh: Option<MeshId>, normal: Option<Vec3>)

  /** The character's world: the keys of its collidables-per-type map, in the
      map's iteration order, and the scene's ray query restricted to the
      collidables registered under one surface type. The scene does not change
      during a tick, so the query is a function of the ray and the type. */
  datatype World = World(collidableTypes: seq<Surface>, pick: (Ray, Surface) -> Option<Hit>)

  /** The surface-contact map: whether the character touches each surface type. */
  type Contacts = map<Surface, bool>

  /** The contact map has an entry for every surface type. */
  predicate Total(c: Contacts) {
    Ground in c && Wall in c
  }

  /** `!!(hit && hit.pickedPoint)`: a pick counts as contact when it reports a point. */
  predicate Touches(hit: Option<Hit>)
    ensures Touches(hit) ==> hit.Some? && hit.value.point.Some?
    ensures hit.None? ==> !Touches(hit)
  {
    hit.Some? && hit.value.point.Some?
  }

  /** The probe ray of `checkCollisions`: from the position, along the velocity
      (straight down when the velocity has length zero), half the height long. */
  function ContactRay(position: Vec3, velocity: Vec3, height: real): (ray: Ray)
    ensures ray.origin == position && ray.length == height / 2.0
    ensures Norm2(ray.direction) > 0.0
    ensures Norm2(velocity) != 0.0 ==> ray.direction == velocity
  {
    Ray(position, if Norm2(velocity) == 0.0 then Down else velocity, height / 2.0)
  }

  /** The contact map after probing, one after another, every surface type in
      `types` with the same ray. */
  function ProbeAll(c: Contacts, types: seq<Surface>, ray: Ray, pick: (Ray, Surface) -> Option<Hit>): (r: Contacts)
    ensures r.Keys == c.Keys + (set s | s in types)
    ensures forall s :: s in r ==> r[s] == if s in types then Touches(pick(ray, s)) else c[s]
    decreases |types|
  {
    if types == [] then c
    else
      var last := types[|types| - 1];
      var front := types[..|types| - 1];
      var r := ProbeAll(c, front, ray, pick)[last := Touches(pick(ray, last))];
      assert forall s :: s in types <==> s in front || s == last;
      r
  }

  /** Probing one more surface type updates just that type's entry. */
  lemma ProbeAllExtend(c: Contacts, types: seq<Surface>, i: nat, ray: Ray, pick: (Ray, Surface) -> Option<Hit>)
    requires i < |types|
    ensures ProbeAll(c, types[..i + 1], ray, pick) == ProbeAll(c, types[..i], ray, pick)[types[i] := Touches(pick(ray, types[i]))]
  {
    assert types[..i + 1][..i] == types[..i];
  }
}
