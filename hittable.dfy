/** `src/hittable.rs`: the nearest hit of a ray against a list of spheres. */
module Hittable {
  import opened Vectors
  import opened Wrappers
  import opened Rays
  import opened Records
  import opened Spheres

  /** What `hit_world` computes, written as a recursion over prefixes of the world: the
      result for the last sphere searches only below the nearest hit among the earlier
      ones, and replaces it when it finds something. */
  function NearestHit(world: seq<Sphere>, r: Ray, tMin: real, tMax: real, sqrt: real -> real)
    : (h: Option<HitRecord>)
    requires SqrtLaw(sqrt)
    ensures h.Some? ==> tMin < h.value.t < tMax
    decreases |world|
  {
    if |world| == 0 then None
    else
      var previous := NearestHit(world[..|world| - 1], r, tMin, tMax, sqrt);
      var closest := if previous.Some? then previous.value.t else tMax;
      var hit := Hit(world[|world| - 1], r, tMin, closest, sqrt);
      if hit.Some? then hit else previous
  }

  /** `hit_world`: scan the spheres in order, narrowing the window to the closest hit so
      far. */
  method HitWorld(world: seq<Sphere>, r: Ray, tMin: real, tMax: real, sqrt: real -> real)
    returns (hitRecord: Option<HitRecord>)
    requires SqrtLaw(sqrt)
    ensures hitRecord == NearestHit(world, r, tMin, tMax, sqrt)
  {
    var closestSoFar := tMax;
    hitRecord := None;
    for i := 0 to |world|
      invariant hitRecord == NearestHit(world[..i], r, tMin, tMax, sqrt)
      invariant closestSoFar == if hitRecord.Some? then hitRecord.value.t else tMax
      invariant hitRecord.Some? ==> tMin < closestSoFar < tMax
    {
      assert world[..i + 1][..i] == world[..i];
      var hit := Hit(world[i], r, tMin, closestSoFar, sqrt);
      if hit.Some? {
        closestSoFar := hit.value.t;
        hitRecord := hit;
      }
    }
    assert world[..|world|] == world;
  }

  /** Adding a sphere at the end never loses a hit and never moves the nearest one
      farther away: the window `hit_world` searches only narrows. */
  lemma NearestHitNarrows(world: seq<Sphere>, r: Ray, tMin: real, tMax: real, sqrt: real -> real)
    requires SqrtLaw(sqrt) && 0 < |world|
    ensures var previous := NearestHit(world[..|world| - 1], r, tMin, tMax, sqrt);
      var h := NearestHit(world, r, tMin, tMax, sqrt);
      previous.Some? ==> h.Some? && h.value.t <= previous.value.t
  {
  }

  /** The world is missed exactly when every sphere is missed (within the full window). */
  lemma {:induction false} NearestHitNone(world: seq<Sphere>, r: Ray, tMin: real, tMax: real, sqrt: real -> real)
    requires SqrtLaw(sqrt)
    ensures NearestHit(world, r, tMin, tMax, sqrt).None?
        <==> forall j :: 0 <= j < |world| ==> Hit(world[j], r, tMin, tMax, sqrt).None?
    decreases |world|
  {
    if |world| > 0 {
      var front := world[..|world| - 1];
      NearestHitNone(front, r, tMin, tMax, sqrt);
      assert forall j :: 0 <= j < |front| ==> front[j] == world[j];
    }
  }

  /** No sphere is hit strictly before the returned record: searching any sphere in the
      window `(tMin, h.t)` finds nothing. */
  lemma {:induction false} NearestHitIsNearest(world: seq<Sphere>, r: Ray, tMin: real, tMax: real,
                                                sqrt: real -> real)
    requires SqrtLaw(sqrt) && NearestHit(world, r, tMin, tMax, sqrt).Some?
    ensures var h := NearestHit(world, r, tMin, tMax, sqrt).value;
      forall j :: 0 <= j < |world| ==> Hit(world[j], r, tMin, h.t, sqrt).None?
    decreases |world|
  {
    var n := |world|;
    var front := world[..n - 1];
    var last := world[n - 1];
    var h := NearestHit(world, r, tMin, tMax, sqrt).value;
    var previous := NearestHit(front, r, tMin, tMax, sqrt);
    var closest := if previous.Some? then previous.value.t else tMax;
    assert forall j :: 0 <= j < |front| ==> front[j] == world[j];
    if Hit(last, r, tMin, closest, sqrt).Some? {
      // The last sphere won: everything earlier misses below `closest`, hence below h.t.
      HitRestrict(last, r, tMin, closest, h.t, sqrt);
      if previous.Some? {
        NearestHitIsNearest(front, r, tMin, tMax, sqrt);
      } else {
        NearestHitNone(front, r, tMin, tMax, sqrt);
      }
      forall j | 0 <= j < n - 1
        ensures Hit(world[j], r, tMin, h.t, sqrt).None?
      {
        HitWindowMonotone(world[j], r, tMin, closest, h.t, sqrt);
      }
    } else {
      NearestHitIsNearest(front, r, tMin, tMax, sqrt);
    }
  }

  /** The same statement against the full window: every sphere is missed, or hit no nearer
      than the returned record. */
  lemma NearestHitMinimal(world: seq<Sphere>, r: Ray, tMin: real, tMax: real, sqrt: real -> real)
    requires SqrtLaw(sqrt) && NearestHit(world, r, tMin, tMax, sqrt).Some?
    ensures var h := NearestHit(world, r, tMin, tMax, sqrt).value;
      forall j :: 0 <= j < |world| ==>
        Hit(world[j], r, tMin, tMax, sqrt).None? || Hit(world[j], r, tMin, tMax, sqrt).value.t >= h.t
  {
    var h := NearestHit(world, r, tMin, tMax, sqrt).value;
    NearestHitIsNearest(world, r, tMin, tMax, sqrt);
    forall j | 0 <= j < |world|
      ensures Hit(world[j], r, tMin, tMax, sqrt).None? || Hit(world[j], r, tMin, tMax, sqrt).value.t >= h.t
    {
      HitRestrict(world[j], r, tMin, tMax, h.t, sqrt);
    }
  }

  /** The material of the returned record is the material of some sphere of the world. */
  lemma NearestHitMaterial(world: seq<Sphere>, r: Ray, tMin: real, tMax: real, sqrt: real -> real)
    requires SqrtLaw(sqrt) && NearestHit(world, r, tMin, tMax, sqrt).Some?
    ensures exists i :: 0 <= i < |world| && world[i].material == NearestHit(world, r, tMin, tMax, sqrt).value.material
  {
    var i := NearestHitSource(world, r, tMin, tMax, sqrt);
    assert world[i].material == NearestHit(world, r, tMin, tMax, sqrt).value.material;
  }

  /** The returned record is exactly what one sphere reports on its own for the full
      window, and that sphere is the first in the list among those hit at the nearest
      distance: every earlier sphere is missed or hit strictly farther away. */
  lemma {:induction false} NearestHitSource(world: seq<Sphere>, r: Ray, tMin: real, tMax: real,
                                             sqrt: real -> real)
    returns (i: nat)
    requires SqrtLaw(sqrt) && NearestHit(world, r, tMin, tMax, sqrt).Some?
    ensures i < |world| && Hit(world[i], r, tMin, tMax, sqrt) == NearestHit(world, r, tMin, tMax, sqrt)
    ensures forall j :: 0 <= j < i ==>
      Hit(world[j], r, tMin, tMax, sqrt).None?
      || Hit(world[j], r, tMin, tMax, sqrt).value.t > NearestHit(world, r, tMin, tMax, sqrt).value.t
    decreases |world|
  {
    var n := |world|;
    var front := world[..n - 1];
    var last := world[n - 1];
    var h := NearestHit(world, r, tMin, tMax, sqrt).value;
    var previous := NearestHit(front, r, tMin, tMax, sqrt);
    var closest := if previous.Some? then previous.value.t else tMax;
    assert forall j :: 0 <= j < |front| ==> front[j] == world[j];
    if Hit(last, r, tMin, closest, sqrt).Some? {
      i := n - 1;
      HitRestrict(last, r, tMin, tMax, closest, sqrt);
      if previous.Some? {
        NearestHitIsNearest(front, r, tMin, tMax, sqrt);
        forall j | 0 <= j < n - 1
          ensures Hit(world[j], r, tMin, tMax, sqrt).None?
               || Hit(world[j], r, tMin, tMax, sqrt).value.t > h.t
        {
          HitRestrict(world[j], r, tMin, tMax, closest, sqrt);
        }
      } else {
        NearestHitNone(front, r, tMin, tMax, sqrt);
      }
    } else {
      i := NearestHitSource(front, r, tMin, tMax, sqrt);
    }
  }
}
