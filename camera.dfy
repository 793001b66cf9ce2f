/** The fly-through camera: a position, yaw and pitch in degrees, a field
    of view, and the front/right/up basis rebuilt from yaw and pitch. */
module XCamera {
  import opened XMath

  const M_PI: real := 3.14159265358979323846

  /** Pitch is kept strictly inside a quarter turn, away from the pole. */
  const PITCH_LIMIT: real := 89.0

  const WORLD_UP := Vec3(0.0, 1.0, 0.0)

  function ClampPitch(p: real): (r: real)
    ensures -PITCH_LIMIT <= r <= PITCH_LIMIT
    ensures -PITCH_LIMIT <= p <= PITCH_LIMIT ==> r == p
    ensures p > PITCH_LIMIT ==> r == PITCH_LIMIT
    ensures p < -PITCH_LIMIT ==> r == -PITCH_LIMIT
  {
    var a := if p > PITCH_LIMIT then PITCH_LIMIT else p;
    if a < -PITCH_LIMIT then -PITCH_LIMIT else a
  }

  function Radians(deg: real): real {
    deg * M_PI / 180.0
  }

  /** The viewing direction of a yaw and a pitch, before normalisation. */
  function FrontDir(m: LibM, yaw: real, pitch: real): Vec3 {
    var y := Radians(yaw);
    var p := Radians(pitch);
    Vec3(m.cosf(y) * m.cosf(p), m.sinf(p), m.sinf(y) * m.cosf(p))
  }

  /** A camera basis: where it looks, its right hand and its up. */
  datatype Basis = Basis(front: Vec3, right: Vec3, up: Vec3)

  /** Three unit vectors at right angles to one another. */
  ghost predicate Orthonormal(b: Basis) {
    Dot(b.front, b.front) == 1.0 && Dot(b.right, b.right) == 1.0 && Dot(b.up, b.up) == 1.0 &&
    Dot(b.right, b.front) == 0.0 && Dot(b.up, b.right) == 0.0 && Dot(b.up, b.front) == 0.0
  }

  /** The basis the camera rebuilds for a yaw and a pitch in range: front
      is the normalised viewing direction, right is horizontal and at right
      angles to front, and up completes the frame. */
  function BasisFor(m: LibM, yaw: real, pitch: real): (b: Basis)
    requires m.Valid() && -PITCH_LIMIT <= pitch <= PITCH_LIMIT
    ensures Orthonormal(b)
    ensures Cross(b.front, FrontDir(m, yaw, pitch)) == Zero && Dot(b.front, FrontDir(m, yaw, pitch)) > 0.0
    ensures Cross(b.right, Cross(b.front, WORLD_UP)) == Zero && Dot(b.right, Cross(b.front, WORLD_UP)) > 0.0
    ensures b.right.y == 0.0
    ensures b.up == Cross(b.right, b.front)
  {
    FrontFacts(m, yaw, pitch);
    var front := Norm(m, FrontDir(m, yaw, pitch));
    RightFacts(m, front);
    var right := Norm(m, Cross(front, WORLD_UP));
    UnitCross(right, front);
    Basis(front, right, Cross(right, front))
  }

  /** The normalised viewing direction is not vertical. */
  lemma FrontFacts(m: LibM, yaw: real, pitch: real)
    requires m.Valid() && -PITCH_LIMIT <= pitch <= PITCH_LIMIT
    ensures FrontDir(m, yaw, pitch) != Zero
    ensures Norm(m, FrontDir(m, yaw, pitch)).x != 0.0 || Norm(m, FrontDir(m, yaw, pitch)).z != 0.0
  {
    FrontDirFacts(m, yaw, pitch);
    NormKeepsZeroComponents(m, FrontDir(m, yaw, pitch));
  }

  /** A unit front that is not vertical gives a horizontal unit right at
      right angles to it. */
  lemma RightFacts(m: LibM, front: Vec3)
    requires m.Valid() && Dot(front, front) == 1.0 && (front.x != 0.0 || front.z != 0.0)
    ensures Cross(front, WORLD_UP) != Zero
    ensures var right := Norm(m, Cross(front, WORLD_UP));
            Dot(right, right) == 1.0 && Dot(right, front) == 0.0 && right.y == 0.0
  {
    var side := Cross(front, WORLD_UP);
    assert side == Vec3(-front.z, 0.0, front.x);
    assert side != Zero;
    assert Dot(side, front) == 0.0 by {
      assert Dot(side, front) == -front.z * front.x + front.x * front.z;
    }
    NormKeepsZeroComponents(m, side);
    NormKeepsOrthogonal(m, side, front);
  }

  /** The viewing direction is a unit vector, and at a pitch in range it is
      not vertical. */
  lemma FrontDirFacts(m: LibM, yaw: real, pitch: real)
    requires m.Valid()
    ensures Dot(FrontDir(m, yaw, pitch), FrontDir(m, yaw, pitch)) == 1.0
    ensures -PITCH_LIMIT <= pitch <= PITCH_LIMIT ==>
            FrontDir(m, yaw, pitch).x != 0.0 || FrontDir(m, yaw, pitch).z != 0.0
  {
    var y := Radians(yaw);
    var p := Radians(pitch);
    assert m.sinf(y) * m.sinf(y) + m.cosf(y) * m.cosf(y) == 1.0;
    assert m.sinf(p) * m.sinf(p) + m.cosf(p) * m.cosf(p) == 1.0;
    SphericalUnit(m.cosf(y), m.sinf(y), m.cosf(p), m.sinf(p));
    if -PITCH_LIMIT <= pitch <= PITCH_LIMIT {
      assert -1.57 <= p <= 1.57;
      assert m.cosf(p) > 0.0;
      NotBothZero(m.cosf(y), m.sinf(y), m.cosf(p));
    }
  }

  lemma SphericalUnit(cy: real, sy: real, cp: real, sp: real)
    requires sy * sy + cy * cy == 1.0 && sp * sp + cp * cp == 1.0
    ensures (cy * cp) * (cy * cp) + sp * sp + (sy * cp) * (sy * cp) == 1.0
  {
    calc {
      (cy * cp) * (cy * cp) + sp * sp + (sy * cp) * (sy * cp);
      == (cy * cy + sy * sy) * (cp * cp) + sp * sp;
      == cp * cp + sp * sp;
      == 1.0;
    }
  }

  lemma NotBothZero(cy: real, sy: real, cp: real)
    requires sy * sy + cy * cy == 1.0 && cp > 0.0
    ensures cy * cp != 0.0 || sy * cp != 0.0
  {
    if cy != 0.0 {
      NonZeroProduct(cy, cp);
    } else {
      assert sy * sy == 1.0;
      NonZeroProduct(sy, cp);
    }
  }

  lemma NonZeroProduct(a: real, b: real)
    requires a != 0.0 && b != 0.0
    ensures a * b != 0.0
  {
  }

  /** Normalising keeps a zero component zero and a non-zero one non-zero. */
  lemma NormKeepsZeroComponents(m: LibM, v: Vec3)
    requires m.Valid() && v != Zero
    ensures (Norm(m, v).x == 0.0 <==> v.x == 0.0) && (Norm(m, v).y == 0.0 <==> v.y == 0.0) &&
            (Norm(m, v).z == 0.0 <==> v.z == 0.0)
  {
    var l := Len(m, v);
    assert Norm(m, v) == Vec3(v.x / l, v.y / l, v.z / l);
  }

  /** Normalising a vector keeps it at right angles to anything it was at
      right angles to. */
  lemma NormKeepsOrthogonal(m: LibM, v: Vec3, w: Vec3)
    requires m.Valid() && v != Zero && Dot(v, w) == 0.0
    ensures Dot(Norm(m, v), w) == 0.0
  {
    var l := Len(m, v);
    assert Norm(m, v) == Mul(v, 1.0 / l);
    DotScaleLeft(v, 1.0 / l, w);
  }

  /** The cross product of two orthogonal unit vectors is a unit vector. */
  lemma UnitCross(a: Vec3, b: Vec3)
    requires Dot(a, a) == 1.0 && Dot(b, b) == 1.0 && Dot(a, b) == 0.0
    ensures Dot(Cross(a, b), Cross(a, b)) == 1.0
  {
    CrossLagrange(a, b);
  }

  /** The camera state. */
  class Camera {
    var position: Vec3
    var yaw: real
    var pitch: real
    var fov: real
    var front: Vec3
    var right: Vec3
    var up: Vec3

    /** Pitch in range and an orthonormal basis. */
    ghost predicate Valid()
      reads this
    {
      -PITCH_LIMIT <= pitch <= PITCH_LIMIT && Orthonormal(Basis(front, right, up))
    }

    /** xCameraInit: at the origin, level, looking along yaw 0, 60 degrees
        field of view, with the basis built by Update. */
    constructor (m: LibM)
      requires m.Valid()
      ensures Valid()
      ensures position == Zero && yaw == 0.0 && pitch == 0.0 && fov == 60.0
      ensures Basis(front, right, up) == BasisFor(m, 0.0, 0.0)
    {
      position := Zero;
      yaw := 0.0;
      pitch := 0.0;
      fov := 60.0;
      // the basis is rebuilt by Update below
      front, right, up := Zero, Zero, Zero;
      new;
      Update(m);
    }

    /** xCameraUpdate: clamp pitch, then rebuild front, right and up in
        that order; position, yaw and field of view are untouched. */
    method Update(m: LibM)
      requires m.Valid()
      modifies this
      ensures Valid()
      ensures position == old(position) && yaw == old(yaw) && fov == old(fov)
      ensures pitch == ClampPitch(old(pitch))
      ensures Basis(front, right, up) == BasisFor(m, yaw, pitch)
    {
      if pitch > PITCH_LIMIT {
        pitch := PITCH_LIMIT;
      }
      if pitch < -PITCH_LIMIT {
        pitch := -PITCH_LIMIT;
      }
      FrontFacts(m, yaw, pitch);
      front := Norm(m, FrontDir(m, yaw, pitch));
      RightFacts(m, front);
      right := Norm(m, Cross(front, WORLD_UP));
      up := Cross(right, front);
      assert Basis(front, right, up) == BasisFor(m, yaw, pitch);
    }

    /** xCameraMove: translate by direction * speed. */
    method Move(direction: Vec3, speed: real)
      modifies this
      ensures position == Add(old(position), Mul(direction, speed))
      ensures yaw == old(yaw) && pitch == old(pitch) && fov == old(fov)
      ensures front == old(front) && right == old(right) && up == old(up)
      ensures old(Valid()) ==> Valid()
    {
      position := Add(position, Mul(direction, speed));
    }

    /** xCameraRotate: add the deltas and rebuild the basis; the pitch
        ends clamped. */
    method Rotate(m: LibM, dyaw: real, dpitch: real)
      requires m.Valid()
      modifies this
      ensures Valid()
      ensures yaw == old(yaw) + dyaw
      ensures pitch == ClampPitch(old(pitch) + dpitch)
      ensures position == old(position) && fov == old(fov)
      ensures Basis(front, right, up) == BasisFor(m, yaw, pitch)
    {
      yaw := yaw + dyaw;
      pitch := pitch + dpitch;
      Update(m);
    }

    /** xCameraGetRay: a ray from the camera position through the viewport
        point front + v * up + u * right. The direction is that point
        normalised: a unit vector parallel to it and pointing the same way.
        It points forward (a positive component along front), and with no
        offsets it is front itself. */
    function GetRay(m: LibM, uScaled: real, vScaled: real): (r: Ray)
      reads this
      requires m.Valid() && Valid()
      ensures r.origin == position
      ensures Dot(r.direction, r.direction) == 1.0
      ensures Dot(r.direction, front) > 0.0
      ensures var target := Add(front, Add(Mul(up, vScaled), Mul(right, uScaled)));
              Cross(r.direction, target) == Zero && Dot(r.direction, target) > 0.0
      ensures uScaled == 0.0 && vScaled == 0.0 ==> r.direction == front
    {
      var rd := Add(front, Add(Mul(up, vScaled), Mul(right, uScaled)));
      ForwardComponent(front, right, up, uScaled, vScaled);
      NormForward(m, rd, front);
      NoOffset(front, right, up);
      NormOfUnit(m, front);
      Ray(position, Norm(m, rd))
    }
  }

  /** The offsets along up and right do not change the component along front. */
  lemma ForwardComponent(front: Vec3, right: Vec3, up: Vec3, u: real, v: real)
    requires Orthonormal(Basis(front, right, up))
    ensures Dot(Add(front, Add(Mul(up, v), Mul(right, u))), front) == 1.0
  {
    DotAddLeft(front, Add(Mul(up, v), Mul(right, u)), front);
    DotAddLeft(Mul(up, v), Mul(right, u), front);
    DotScaleLeft(up, v, front);
    DotScaleLeft(right, u, front);
  }

  /** With no offsets the viewport point is front itself. */
  lemma NoOffset(front: Vec3, right: Vec3, up: Vec3)
    ensures Add(front, Add(Mul(up, 0.0), Mul(right, 0.0))) == front
  {
    ScaleByZero(up);
    ScaleByZero(right);
  }

  lemma ScaleByZero(v: Vec3)
    ensures Mul(v, 0.0) == Zero
  {
  }

  /** A vector with component 1 along a unit front normalises to one with a
      positive component along front. */
  lemma NormForward(m: LibM, v: Vec3, front: Vec3)
    requires m.Valid() && Dot(v, front) == 1.0
    ensures v != Zero && Dot(Norm(m, v), front) > 0.0
  {
    assert v != Zero;
    var l := Len(m, v);
    assert Norm(m, v) == Mul(v, 1.0 / l);
    DotScaleLeft(v, 1.0 / l, front);
  }

  /** Normalising a unit vector leaves it unchanged. */
  lemma NormOfUnit(m: LibM, v: Vec3)
    requires m.Valid() && Dot(v, v) == 1.0
    ensures v != Zero && Norm(m, v) == v
  {
    assert v != Zero;
    var l := Len(m, v);
    UnitRoot(l);
    assert Norm(m, v) == VDiv(v, 1.0);
  }

  lemma UnitRoot(l: real)
    requires l >= 0.0 && l * l == 1.0
    ensures l == 1.0
  {
    assert (l - 1.0) * (l + 1.0) == 0.0;
    CancelPositive(l - 1.0, l + 1.0);
  }

  lemma CancelPositive(a: real, b: real)
    requires b > 0.0 && a * b == 0.0
    ensures a == 0.0
  {
    calc {
      a;
      == a * b / b;
      == 0.0;
    }
  }

  /** The pitch after a sequence of rotations by the given pitch deltas,
      each one clamped. */
  function PitchAfter(p0: real, deltas: seq<real>): (p: real)
    ensures deltas != [] ==> -PITCH_LIMIT <= p <= PITCH_LIMIT
  {
    if deltas == [] then p0
    else ClampPitch(PitchAfter(p0, deltas[..|deltas| - 1]) + deltas[|deltas| - 1])
  }

  function Sum(ds: seq<real>): real {
    if ds == [] then 0.0 else Sum(ds[..|ds| - 1]) + ds[|ds| - 1]
  }

  /** While every intermediate pitch stays in range, clamping never bites
      and the pitch is the starting pitch plus the sum of the deltas. */
  lemma {:induction false} PitchAfterUnclamped(p0: real, deltas: seq<real>)
    requires forall k :: 0 <= k <= |deltas| ==> -PITCH_LIMIT <= p0 + Sum(deltas[..k]) <= PITCH_LIMIT
    ensures PitchAfter(p0, deltas) == p0 + Sum(deltas)
  {
    if deltas != [] {
      var init := deltas[..|deltas| - 1];
      forall k | 0 <= k <= |init|
        ensures -PITCH_LIMIT <= p0 + Sum(init[..k]) <= PITCH_LIMIT
      {
        assert init[..k] == deltas[..k];
      }
      PitchAfterUnclamped(p0, init);
      assert deltas[..|deltas|] == deltas;
    }
  }
}
