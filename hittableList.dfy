/**
 * The scene: a list of spheres that is grown with `add` and emptied with
 * `clear`, and whose `hit` asks every member in turn, shrinking the upper end
 * of the window to the nearest hit found so far.
 */
module HittableLists {
  import opened Optional
  import opened Constants
  import opened Vectors
  import opened Rays
  import opened Hittables
  import opened Materials
  import opened Spheres

  /** The upper end of the window after the members seen so far. */
  function Closest(found: Option<Record>, tMax: Bound): (b: Bound)
    ensures found.None? ==> b == tMax
    ensures found.Some? ==> b == Finite(found.value.t)
  {
    if found.Some? then Finite(found.value.t) else tMax
  }

  /**
   * The outcome of the scene's loop over `objs`: each member is asked with the
   * window closed at the nearest hit so far, and a new hit replaces it.
   */
  function ClosestHit(objs: seq<Sphere>, r: Ray, tMin: real, tMax: Bound, sqrt: real -> real): (res: Option<Record>)
    decreases |objs|
    ensures res.Some? ==> InWindow(res.value.t, tMin, tMax)
    ensures |objs| == 0 ==> res.None?
  {
    if |objs| == 0 then None
    else
      var prev := ClosestHit(objs[..|objs| - 1], r, tMin, tMax, sqrt);
      match HitResult(objs[|objs| - 1], r, tMin, Closest(prev, tMax), sqrt)
      case Some(rec) => Some(rec)
      case None => prev
  }

  /**
   * `rec` is member `k`'s own hit in the full window, no farther than any
   * earlier member's and strictly nearer than any later member's: among equally
   * near hits, the last member wins.
   */
  predicate LastNearest(objs: seq<Sphere>, r: Ray, tMin: real, tMax: Bound, sqrt: real -> real, k: int, rec: Record) {
    && 0 <= k < |objs|
    && HitResult(objs[k], r, tMin, tMax, sqrt) == Some(rec)
    && (forall j :: 0 <= j < k && HitResult(objs[j], r, tMin, tMax, sqrt).Some? ==>
          rec.t <= HitResult(objs[j], r, tMin, tMax, sqrt).value.t)
    && (forall j :: k < j < |objs| && HitResult(objs[j], r, tMin, tMax, sqrt).Some? ==>
          rec.t < HitResult(objs[j], r, tMin, tMax, sqrt).value.t)
  }

  class HittableList {
    var objects: seq<Sphere>

    /** The empty scene. */
    constructor ()
      ensures objects == []
    {
      objects := [];
    }

    /** The one-member scene, built by `add`. */
    constructor Single(obj: Sphere)
      ensures objects == [obj]
    {
      objects := [];
      new;
      Add(obj);
    }

    method Clear()
      modifies this
      ensures objects == []
    {
      objects := [];
    }

    method Add(obj: Sphere)
      modifies this
      ensures objects == old(objects) + [obj]
    {
      objects := objects + [obj];
    }

    /**
     * `hit`: the record is passed in and its new value returned; it is written
     * only when some member is hit.
     */
    method Hit(r: Ray, tMin: real, tMax: Bound, rec: Record, sqrt: real -> real)
      returns (hitAnything: bool, rec': Record)
      ensures hitAnything <==> ClosestHit(objects, r, tMin, tMax, sqrt).Some?
      ensures hitAnything ==> rec' == ClosestHit(objects, r, tMin, tMax, sqrt).value
      ensures !hitAnything ==> rec' == rec
    {
      var tempRec: Record := DefaultRecord();
      hitAnything := false;
      rec' := rec;
      var closestSoFar := tMax;

      for i := 0 to |objects|
        invariant hitAnything <==> ClosestHit(objects[..i], r, tMin, tMax, sqrt).Some?
        invariant hitAnything ==> rec' == ClosestHit(objects[..i], r, tMin, tMax, sqrt).value
        invariant !hitAnything ==> rec' == rec
        invariant closestSoFar == Closest(ClosestHit(objects[..i], r, tMin, tMax, sqrt), tMax)
      {
        assert objects[..i + 1][..i] == objects[..i];
        var hit;
        hit, tempRec := Spheres.Hit(objects[i], r, tMin, closestSoFar, tempRec, sqrt);
        if hit {
          hitAnything := true;
          closestSoFar := Finite(tempRec.t);
          rec' := tempRec;
        }
      }
      assert objects[..|objects|] == objects;
    }
  }

  // ---------------------------------------------------------------------------
  // What the loop computes.

  /**
   * The scene reports a hit exactly when some member has one in the full
   * window, and then it reports the last of the nearest members' hit.
   */
  lemma {:induction false} ClosestHitIsLastNearest(objs: seq<Sphere>, r: Ray, tMin: real, tMax: Bound, sqrt: real -> real)
    requires IsSqrt(sqrt)
    ensures ClosestHit(objs, r, tMin, tMax, sqrt).None? <==>
      forall j :: 0 <= j < |objs| ==> HitResult(objs[j], r, tMin, tMax, sqrt).None?
    ensures ClosestHit(objs, r, tMin, tMax, sqrt).Some? ==>
      exists k :: LastNearest(objs, r, tMin, tMax, sqrt, k, ClosestHit(objs, r, tMin, tMax, sqrt).value)
    decreases |objs|
  {
    if |objs| != 0 {
      var n := |objs| - 1;
      var init := objs[..n];
      var o := objs[n];
      ClosestHitIsLastNearest(init, r, tMin, tMax, sqrt);
      var prev := ClosestHit(init, r, tMin, tMax, sqrt);
      var hn := HitResult(o, r, tMin, tMax, sqrt);
      if prev.None? {
        assert forall j :: 0 <= j < n ==> init[j] == objs[j];
        if hn.Some? {
          ExtendFirstHit(objs, r, tMin, tMax, sqrt);
        }
      } else {
        var p := prev.value;
        var k' :| LastNearest(init, r, tMin, tMax, sqrt, k', p);
        var b := Finite(p.t);
        HitShrink(o, r, tMin, b, tMax, sqrt);
        var hb := HitResult(o, r, tMin, b, sqrt);
        if hb.Some? {
          ExtendNearer(objs, r, tMin, tMax, sqrt, k', p);
        } else {
          ExtendFarther(objs, r, tMin, tMax, sqrt, k', p);
        }
      }
    }
  }

  /** The first member hit becomes the scene's hit. */
  lemma ExtendFirstHit(objs: seq<Sphere>, r: Ray, tMin: real, tMax: Bound, sqrt: real -> real)
    requires |objs| != 0
    requires forall j :: 0 <= j < |objs| - 1 ==> HitResult(objs[j], r, tMin, tMax, sqrt).None?
    requires HitResult(objs[|objs| - 1], r, tMin, tMax, sqrt).Some?
    ensures LastNearest(objs, r, tMin, tMax, sqrt, |objs| - 1, HitResult(objs[|objs| - 1], r, tMin, tMax, sqrt).value)
  {
  }

  /** A last member hit no farther than the hit so far takes its place. */
  lemma ExtendNearer(objs: seq<Sphere>, r: Ray, tMin: real, tMax: Bound, sqrt: real -> real, k: int, p: Record)
    requires |objs| != 0
    requires LastNearest(objs[..|objs| - 1], r, tMin, tMax, sqrt, k, p)
    requires HitResult(objs[|objs| - 1], r, tMin, tMax, sqrt).Some?
    requires HitResult(objs[|objs| - 1], r, tMin, tMax, sqrt).value.t <= p.t
    ensures LastNearest(objs, r, tMin, tMax, sqrt, |objs| - 1, HitResult(objs[|objs| - 1], r, tMin, tMax, sqrt).value)
  {
    assert forall j :: 0 <= j < |objs| - 1 ==> objs[..|objs| - 1][j] == objs[j];
  }

  /** A last member missed, or hit strictly farther, leaves the hit so far. */
  lemma ExtendFarther(objs: seq<Sphere>, r: Ray, tMin: real, tMax: Bound, sqrt: real -> real, k: int, p: Record)
    requires |objs| != 0
    requires LastNearest(objs[..|objs| - 1], r, tMin, tMax, sqrt, k, p)
    requires HitResult(objs[|objs| - 1], r, tMin, tMax, sqrt).Some? ==>
      p.t < HitResult(objs[|objs| - 1], r, tMin, tMax, sqrt).value.t
    ensures LastNearest(objs, r, tMin, tMax, sqrt, k, p)
  {
    assert forall j :: 0 <= j < |objs| - 1 ==> objs[..|objs| - 1][j] == objs[j];
  }

  /**
   * The scene's hit is the nearest sphere point in the window: no point of
   * the ray within the window on any member lies nearer.
   */
  lemma SceneHitIsNearest(objs: seq<Sphere>, r: Ray, tMin: real, tMax: Bound, sqrt: real -> real, j: int, t: real)
    requires IsSqrt(sqrt) && r.direction != Zero()
    requires 0 <= j < |objs| && InWindow(t, tMin, tMax)
    requires LiesOn(objs[j], At(r, t))
    ensures ClosestHit(objs, r, tMin, tMax, sqrt).Some?
    ensures ClosestHit(objs, r, tMin, tMax, sqrt).value.t <= t
  {
    HitIsNearest(objs[j], r, tMin, tMax, t, sqrt);
    ClosestHitIsLastNearest(objs, r, tMin, tMax, sqrt);
  }

  /** The scene's hit lies on one of its members and carries that member's material. */
  lemma SceneHitOnMember(objs: seq<Sphere>, r: Ray, tMin: real, tMax: Bound, sqrt: real -> real)
    requires IsSqrt(sqrt) && r.direction != Zero()
    requires ClosestHit(objs, r, tMin, tMax, sqrt).Some?
    ensures var rec := ClosestHit(objs, r, tMin, tMax, sqrt).value;
      exists k :: 0 <= k < |objs| && LiesOn(objs[k], rec.p) && rec.matPtr == Some(objs[k].mat)
  {
    ClosestHitIsLastNearest(objs, r, tMin, tMax, sqrt);
    var rec := ClosestHit(objs, r, tMin, tMax, sqrt).value;
    var k :| LastNearest(objs, r, tMin, tMax, sqrt, k, rec);
    assert HitResult(objs[k], r, tMin, tMax, sqrt) == Some(rec);
    HitOnSurface(objs[k], r, tMin, tMax, sqrt);
    assert LiesOn(objs[k], rec.p);
  }

  /** The scene's hit carries the material of one of its members. */
  lemma {:induction false} SceneHitMaterial(objs: seq<Sphere>, r: Ray, tMin: real, tMax: Bound, sqrt: real -> real)
    requires ClosestHit(objs, r, tMin, tMax, sqrt).Some?
    ensures exists k :: 0 <= k < |objs| && ClosestHit(objs, r, tMin, tMax, sqrt).value.matPtr == Some(objs[k].mat)
    decreases |objs|
  {
    var n := |objs| - 1;
    var init := objs[..n];
    var prev := ClosestHit(init, r, tMin, tMax, sqrt);
    if HitResult(objs[n], r, tMin, Closest(prev, tMax), sqrt).None? {
      SceneHitMaterial(init, r, tMin, tMax, sqrt);
      var k :| 0 <= k < n && prev.value.matPtr == Some(init[k].mat);
      assert init[k] == objs[k];
    }
  }

  /** The narrowed upper bound starts at `tMax` and never grows as members are scanned. */
  lemma ClosestNeverIncreases(objs: seq<Sphere>, s: Sphere, r: Ray, tMin: real, tMax: Bound, sqrt: real -> real)
    ensures Closest(ClosestHit([], r, tMin, tMax, sqrt), tMax) == tMax
    ensures BoundLe(Closest(ClosestHit(objs + [s], r, tMin, tMax, sqrt), tMax),
                    Closest(ClosestHit(objs, r, tMin, tMax, sqrt), tMax))
  {
    assert (objs + [s])[..|objs|] == objs;
  }

  /**
   * Adding a member that is missed, or hit strictly farther than the scene's
   * hit, leaves the scene's hit as it was.
   */
  lemma AddNotNearer(objs: seq<Sphere>, s: Sphere, r: Ray, tMin: real, tMax: Bound, sqrt: real -> real)
    requires IsSqrt(sqrt)
    requires HitResult(s, r, tMin, tMax, sqrt).Some? ==>
      ClosestHit(objs, r, tMin, tMax, sqrt).Some? &&
      ClosestHit(objs, r, tMin, tMax, sqrt).value.t < HitResult(s, r, tMin, tMax, sqrt).value.t
    ensures ClosestHit(objs + [s], r, tMin, tMax, sqrt) == ClosestHit(objs, r, tMin, tMax, sqrt)
  {
    var prev := ClosestHit(objs, r, tMin, tMax, sqrt);
    assert (objs + [s])[..|objs|] == objs;
    HitShrink(s, r, tMin, Closest(prev, tMax), tMax, sqrt);
  }

  /** Adding a member hit no farther than the scene's hit makes it the scene's hit. */
  lemma AddNearer(objs: seq<Sphere>, s: Sphere, r: Ray, tMin: real, tMax: Bound, sqrt: real -> real)
    requires IsSqrt(sqrt)
    requires HitResult(s, r, tMin, tMax, sqrt).Some?
    requires ClosestHit(objs, r, tMin, tMax, sqrt).Some? ==>
      HitResult(s, r, tMin, tMax, sqrt).value.t <= ClosestHit(objs, r, tMin, tMax, sqrt).value.t
    ensures ClosestHit(objs + [s], r, tMin, tMax, sqrt) == HitResult(s, r, tMin, tMax, sqrt)
  {
    var prev := ClosestHit(objs, r, tMin, tMax, sqrt);
    assert (objs + [s])[..|objs|] == objs;
    HitShrink(s, r, tMin, Closest(prev, tMax), tMax, sqrt);
  }
}
