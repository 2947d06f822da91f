/**
 * The record an intersection test fills in.  The record is a value struct
 * (the scene copies it with `rec = tempRec`), so it is a datatype here, and a
 * member function that assigns some of its fields returns the updated record.
 * The material is a type parameter: this header only forward-declares it.
 */
module Hittables {
  import opened Optional
  import opened Vectors
  import opened Rays

  /** `matPtr` is a `shared_ptr`: None stands for the null pointer. */
  datatype HitRecord<M> = HitRecord(p: Point3, normal: Vec3, matPtr: Option<M>, t: real, frontFace: bool)

  /**
   * A default-initialised record: the vector members are zero and the pointer
   * is null; `t` and `frontFace` are indeterminate in the source and are taken
   * as 0 and false.
   */
  function DefaultRecord<M>(): HitRecord<M> {
    HitRecord(Zero(), Zero(), None, 0.0, false)
  }

  /**
   * `setFaceNormal`: records whether the ray meets the front face and stores
   * the normal turned against the ray.  Only `frontFace` and `normal` change.
   */
  function SetFaceNormal<M>(rec: HitRecord<M>, r: Ray, outwardNormal: Vec3): (rec': HitRecord<M>)
    ensures rec'.frontFace <==> Dot(r.direction, outwardNormal) < 0.0
    ensures rec'.frontFace ==> rec'.normal == outwardNormal
    ensures !rec'.frontFace ==> rec'.normal == Neg(outwardNormal)
    ensures Dot(r.direction, rec'.normal) <= 0.0
    ensures LengthSquared(rec'.normal) == LengthSquared(outwardNormal)
    ensures rec'.p == rec.p && rec'.t == rec.t && rec'.matPtr == rec.matPtr
  {
    LengthSquaredNeg(outwardNormal);
    var frontFace := Dot(r.direction, outwardNormal) < 0.0;
    rec.(frontFace := frontFace,
         normal := if frontFace then outwardNormal else Neg(outwardNormal))
  }
}
