/** Scene primitives (spheres and finite rectangles) and their ray
    intersection tests, which update a shared closest-hit record. */
module Intersect {
  import opened XMath

  datatype Option<T> = None | Some(value: T)

  datatype Material = Material(color: Vec3, reflectivity: real, specular: real)

  datatype Sphere = Sphere(center: Vec3, radius: real, mat: Material)

  /** A finite planar quad centred on `point`, spanned by `u` and `v`. */
  datatype Rect = Rect(point: Vec3, normal: Vec3, u: Vec3, v: Vec3,
                       width: real, height: real, mat: Material)

  /** The closest hit found so far along a ray. */
  datatype HitRecord = HitRecord(hit: bool, t: real, point: Vec3, normal: Vec3, mat: Material)

  /** Hits closer than this to the ray origin are ignored (self-intersection guard). */
  const EPSILON: real := 0.001

  /** A ray whose direction has a smaller normal component than this misses a rect. */
  const PARALLEL_EPSILON: real := 0.0001

  function Abs(a: real): real {
    if a < 0.0 then -a else a
  }

  /** The point at distance t along the ray. */
  function At(ray: Ray, t: real): Vec3 {
    Add(ray.origin, Mul(ray.direction, t))
  }

  /** A sphere's normal is divided by its radius, so a zero radius is excluded. */
  predicate WellFormedSphere(s: Sphere) {
    s.radius != 0.0
  }

  // ---------------------------------------------------------------- spheres

  /** The point at distance t lies on the sphere's surface. */
  ghost predicate OnSphere(ray: Ray, s: Sphere, t: real) {
    var d := Sub(At(ray, t), s.center);
    Dot(d, d) == s.radius * s.radius
  }

  /** Half the linear coefficient of the ray/sphere quadratic (for a unit
      direction): the projection of origin - centre on the direction. */
  function SphereB(ray: Ray, s: Sphere): real {
    Dot(Sub(ray.origin, s.center), ray.direction)
  }

  /** The quarter-discriminant b^2 - c of the ray/sphere quadratic. */
  function SphereDisc(ray: Ray, s: Sphere): real {
    var oc := Sub(ray.origin, s.center);
    var b := Dot(oc, ray.direction);
    b * b - (Dot(oc, oc) - s.radius * s.radius)
  }

  /** The distance the sphere offers along the ray: the near root of the
      quadratic, or the far root when the near one is closer than EPSILON;
      none when the discriminant is negative or both roots are closer than
      EPSILON. */
  function SphereRoot(m: LibM, ray: Ray, s: Sphere): (t: Option<real>)
    ensures t.Some? ==> t.value >= EPSILON
  {
    var b := SphereB(ray, s);
    var disc := SphereDisc(ray, s);
    if disc < 0.0 then None
    else if -b - m.sqrtf(disc) >= EPSILON then Some(-b - m.sqrtf(disc))
    else if -b + m.sqrtf(disc) >= EPSILON then Some(-b + m.sqrtf(disc))
    else None
  }

  /** The hit record the sphere offers, ignoring the current closest distance. */
  function SphereCandidate(m: LibM, ray: Ray, s: Sphere): (c: Option<HitRecord>)
    requires WellFormedSphere(s)
    ensures c.Some? <==> SphereRoot(m, ray, s).Some?
    ensures c.Some? ==> c.value.hit && c.value.t == SphereRoot(m, ray, s).value && c.value.mat == s.mat
    ensures c.Some? ==> c.value.point == At(ray, c.value.t)
    ensures c.Some? ==> Mul(c.value.normal, s.radius) == Sub(c.value.point, s.center)
  {
    match SphereRoot(m, ray, s)
    case None => None
    case Some(t) =>
      var p := At(ray, t);
      Some(HitRecord(true, t, p, VDiv(Sub(p, s.center), s.radius), s.mat))
  }

  /** (o + t d) . (o + t d) == o . o + 2 t (o . d) + t^2 for a unit d, in components. */
  lemma QuadraticExpansion(ox: real, oy: real, oz: real, dx: real, dy: real, dz: real, t: real)
    requires dx * dx + dy * dy + dz * dz == 1.0
    ensures (ox + dx * t) * (ox + dx * t) + (oy + dy * t) * (oy + dy * t) + (oz + dz * t) * (oz + dz * t)
         == (ox * ox + oy * oy + oz * oz) + 2.0 * t * (ox * dx + oy * dy + oz * dz) + t * t
  {
    calc {
      (ox + dx * t) * (ox + dx * t) + (oy + dy * t) * (oy + dy * t) + (oz + dz * t) * (oz + dz * t);
      == (ox * ox + oy * oy + oz * oz) + 2.0 * t * (ox * dx + oy * dy + oz * dz)
         + t * t * (dx * dx + dy * dy + dz * dz);
      == (ox * ox + oy * oy + oz * oz) + 2.0 * t * (ox * dx + oy * dy + oz * dz) + t * t;
    }
  }

  /** For a unit direction, the point at distance t is on the sphere exactly
      when (t + b)^2 equals the discriminant. */
  lemma {:induction false} SphereQuadratic(ray: Ray, s: Sphere, t: real)
    requires Dot(ray.direction, ray.direction) == 1.0
    ensures OnSphere(ray, s, t) <==>
            (t + SphereB(ray, s)) * (t + SphereB(ray, s)) == SphereDisc(ray, s)
  {
    var d := ray.direction;
    var oc := Sub(ray.origin, s.center);
    var b := SphereB(ray, s);
    var w := Sub(At(ray, t), s.center);
    assert w == Vec3(oc.x + d.x * t, oc.y + d.y * t, oc.z + d.z * t);
    QuadraticExpansion(oc.x, oc.y, oc.z, d.x, d.y, d.z, t);
    assert Dot(w, w) == Dot(oc, oc) + 2.0 * t * b + t * t;
    calc {
      (t + b) * (t + b);
      == t * t + 2.0 * t * b + b * b;
    }
  }

  /** x^2 == s^2 with s >= 0 has exactly the roots s and -s. */
  lemma SquareRoots(x: real, s: real)
    requires s >= 0.0
    ensures x * x == s * s <==> (x == s || x == -s)
  {
    if x * x == s * s {
      assert (x - s) * (x + s) == x * x - s * s;
      ZeroProduct(x - s, x + s);
    }
  }

  lemma ZeroProduct(a: real, b: real)
    requires a * b == 0.0
    ensures a == 0.0 || b == 0.0
  {
    if a != 0.0 && b != 0.0 {
      if (a > 0.0) == (b > 0.0) {
        SignedProduct(a, b);
      } else {
        SignedProduct(a, -b);
      }
    }
  }

  lemma SignedProduct(a: real, b: real)
    requires (a > 0.0 && b > 0.0) || (a < 0.0 && b < 0.0)
    ensures a * b > 0.0
  {
  }

  /** For a unit direction the sphere meets the ray exactly at -b - sqrt(disc)
      and -b + sqrt(disc) when disc >= 0, and nowhere when disc < 0. */
  lemma SphereHitsAt(m: LibM, ray: Ray, s: Sphere, t: real)
    requires m.Valid()
    requires Dot(ray.direction, ray.direction) == 1.0
    ensures SphereDisc(ray, s) < 0.0 ==> !OnSphere(ray, s, t)
    ensures SphereDisc(ray, s) >= 0.0 ==>
            var sq := m.sqrtf(SphereDisc(ray, s));
            sq >= 0.0 &&
            (OnSphere(ray, s, t) <==> (t == -SphereB(ray, s) - sq || t == -SphereB(ray, s) + sq))
  {
    if SphereDisc(ray, s) < 0.0 {
      SphereMissesAt(ray, s, t);
    } else {
      SphereRootsAt(m, ray, s, t);
    }
  }

  lemma {:induction false} SphereMissesAt(ray: Ray, s: Sphere, t: real)
    requires Dot(ray.direction, ray.direction) == 1.0 && SphereDisc(ray, s) < 0.0
    ensures !OnSphere(ray, s, t)
  {
    SphereQuadratic(ray, s, t);
    SquareNonNeg(t + SphereB(ray, s));
  }

  lemma {:induction false} SphereRootsAt(m: LibM, ray: Ray, s: Sphere, t: real)
    requires m.Valid() && Dot(ray.direction, ray.direction) == 1.0 && SphereDisc(ray, s) >= 0.0
    ensures var sq := m.sqrtf(SphereDisc(ray, s));
            sq >= 0.0 &&
            (OnSphere(ray, s, t) <==> (t == -SphereB(ray, s) - sq || t == -SphereB(ray, s) + sq))
  {
    SphereQuadratic(ray, s, t);
    SqrtFacts(m, SphereDisc(ray, s));
    ShiftedRoots(t, SphereB(ray, s), SphereDisc(ray, s), m.sqrtf(SphereDisc(ray, s)));
  }

  /** (t + b)^2 == disc exactly at t == -b - sq and t == -b + sq, where sq
      is the non-negative square root of disc. */
  lemma ShiftedRoots(t: real, b: real, disc: real, sq: real)
    requires sq >= 0.0 && sq * sq == disc
    ensures (t + b) * (t + b) == disc <==> (t == -b - sq || t == -b + sq)
  {
    SquareRoots(t + b, sq);
  }

  /** For a unit direction, the sphere's distance is the first point of the
      sphere at distance at least EPSILON along the ray; with no distance, no
      such point exists (in particular when the discriminant is negative). */
  lemma {:induction false} SphereRootIsFirstHit(m: LibM, ray: Ray, s: Sphere)
    requires m.Valid()
    requires Dot(ray.direction, ray.direction) == 1.0
    ensures var c := SphereRoot(m, ray, s);
            (c.Some? ==> OnSphere(ray, s, c.value)) &&
            (c.Some? ==> forall t :: EPSILON <= t < c.value ==> !OnSphere(ray, s, t)) &&
            (c.None? ==> forall t :: EPSILON <= t ==> !OnSphere(ray, s, t))
  {
    var c := SphereRoot(m, ray, s);
    forall t
      ensures c.Some? && EPSILON <= t < c.value ==> !OnSphere(ray, s, t)
      ensures c.None? && EPSILON <= t ==> !OnSphere(ray, s, t)
    {
      SphereHitsAt(m, ray, s, t);
    }
    if c.Some? {
      SphereHitsAt(m, ray, s, c.value);
    }
  }

  /** For a unit direction the normal of a sphere hit is a unit vector: the
      hit point lies on the sphere, and the normal is its offset from the
      centre divided by the radius. */
  lemma {:induction false} SphereHitNormal(m: LibM, ray: Ray, s: Sphere)
    requires m.Valid() && WellFormedSphere(s)
    requires Dot(ray.direction, ray.direction) == 1.0
    ensures var c := SphereCandidate(m, ray, s);
            c.Some? ==> Dot(c.value.normal, c.value.normal) == 1.0
  {
    var c := SphereCandidate(m, ray, s);
    if c.Some? {
      SphereRootIsFirstHit(m, ray, s);
      assert OnSphere(ray, s, c.value.t);
      UnitFromScaled(m, c.value.normal, s.radius, Sub(c.value.point, s.center));
    }
  }

  /** A vector that, scaled by k, has squared length k^2 is a unit vector. */
  lemma UnitFromScaled(m: LibM, n: Vec3, k: real, w: Vec3)
    requires m.Valid() && k != 0.0 && Mul(n, k) == w && Dot(w, w) == k * k
    ensures Dot(n, n) == 1.0
  {
    var u := SignedNorm(m, w, k);
    ScaleCancel(n, u, k);
  }

  /** A vector of squared length k^2 is k times a unit vector: its
      normalisation, or that reversed when k is negative. */
  lemma SignedNorm(m: LibM, w: Vec3, k: real) returns (u: Vec3)
    requires m.Valid() && k != 0.0 && Dot(w, w) == k * k
    ensures Dot(u, u) == 1.0 && Mul(u, k) == w
  {
    NonZeroByLength(w, k);
    var l := Len(m, w);
    u := Norm(m, w);
    NormScales(m, w);
    SquareRoots(k, l);
    if k != l {
      NegateScale(u, l);
      NegateUnit(u);
      u := Mul(u, -1.0);
    }
  }

  lemma NonZeroByLength(w: Vec3, k: real)
    requires k != 0.0 && Dot(w, w) == k * k
    ensures w != Zero
  {
    calc {
      Dot(w, w);
      == k * k;
      > { SquarePos(k); }
      0.0;
    }
  }

  /** Norm divides by the length, so scaling back by it restores the vector. */
  lemma NormScales(m: LibM, w: Vec3)
    requires m.Valid() && w != Zero
    ensures Mul(Norm(m, w), Len(m, w)) == w
  {
  }

  lemma NegateScale(u: Vec3, l: real)
    ensures Mul(Mul(u, -1.0), -l) == Mul(u, l)
  {
  }

  lemma NegateUnit(u: Vec3)
    requires Dot(u, u) == 1.0
    ensures Dot(Mul(u, -1.0), Mul(u, -1.0)) == 1.0
  {
  }

  /** Scaling by a non-zero factor is injective. */
  lemma ScaleCancel(a: Vec3, b: Vec3, k: real)
    requires k != 0.0 && Mul(a, k) == Mul(b, k)
    ensures a == b
  {
    CancelFactor(a.x, b.x, k);
    CancelFactor(a.y, b.y, k);
    CancelFactor(a.z, b.z, k);
  }

  /** sphere.intersect: overwrite the record with the sphere's hit when it is
      strictly closer than the record's; otherwise leave the record as it was. */
  method IntersectSphere(m: LibM, ray: Ray, sphere: Sphere, rec: HitRecord)
    returns (accepted: bool, out: HitRecord)
    requires WellFormedSphere(sphere)
    ensures !accepted ==> out == rec
    ensures accepted ==> out.hit && EPSILON <= out.t < rec.t
    ensures out == Closer(rec, SphereCandidate(m, ray, sphere))
  {
    var oc := Sub(ray.origin, sphere.center);
    var b := Dot(oc, ray.direction);
    var c := Dot(oc, oc) - sphere.radius * sphere.radius;
    var discriminant := b * b - c;
    assert b == SphereB(ray, sphere) && discriminant == SphereDisc(ray, sphere);
    if discriminant < 0.0 {
      return false, rec;
    }
    var sqrtD := m.sqrtf(discriminant);
    var t := -b - sqrtD;
    if t < EPSILON {
      t := -b + sqrtD;
      if t < EPSILON {
        return false, rec;
      }
    }
    assert SphereRoot(m, ray, sphere) == Some(t);
    if t >= rec.t {
      return false, rec;
    }
    var point := Add(ray.origin, Mul(ray.direction, t));
    out := rec.(hit := true, t := t, point := point,
                normal := VDiv(Sub(point, sphere.center), sphere.radius), mat := sphere.mat);
    accepted := true;
  }

  // ---------------------------------------------------------------- rects

  /** The point at distance t lies in the rect's plane. */
  ghost predicate OnPlane(ray: Ray, r: Rect, t: real) {
    Dot(Sub(At(ray, t), r.point), r.normal) == 0.0
  }

  /** The point at distance t lies on the finite rect: in its plane and
      within half the width along u and half the height along v. */
  ghost predicate OnRect(ray: Ray, r: Rect, t: real) {
    var vh := Sub(At(ray, t), r.point);
    OnPlane(ray, r, t) &&
    -r.width / 2.0 <= Dot(vh, r.u) <= r.width / 2.0 &&
    -r.height / 2.0 <= Dot(vh, r.v) <= r.height / 2.0
  }

  /** The hit the rect offers along the ray, ignoring the current closest
      distance: none for a (nearly) parallel ray, a plane crossing closer than
      EPSILON, or a crossing outside the rect's extents. */
  function RectCandidate(ray: Ray, r: Rect): (c: Option<HitRecord>)
    ensures c.Some? ==> c.value.hit && c.value.t >= EPSILON && c.value.mat == r.mat
    ensures c.Some? ==> c.value.point == At(ray, c.value.t) && c.value.normal == r.normal
  {
    var denom := Dot(r.normal, ray.direction);
    if Abs(denom) < PARALLEL_EPSILON then None
    else
      var t := Dot(Sub(r.point, ray.origin), r.normal) / denom;
      if t < EPSILON then None
      else
        var p := At(ray, t);
        var vh := Sub(p, r.point);
        var u := Dot(vh, r.u);
        var v := Dot(vh, r.v);
        if u < -r.width / 2.0 || u > r.width / 2.0 then None
        else if v < -r.height / 2.0 || v > r.height / 2.0 then None
        else Some(HitRecord(true, t, p, r.normal, r.mat))
  }

  /** The plane is crossed at distance t exactly when t * (n . d) == (P - o) . n. */
  lemma {:induction false} PlaneCrossing(ray: Ray, r: Rect, t: real)
    ensures OnPlane(ray, r, t) <==>
            t * Dot(r.normal, ray.direction) == Dot(Sub(r.point, ray.origin), r.normal)
  {
    var d := ray.direction;
    var n := r.normal;
    var w := Sub(At(ray, t), r.point);
    assert w == Add(Sub(ray.origin, r.point), Mul(d, t));
    DotAddLeft(Sub(ray.origin, r.point), Mul(d, t), n);
    DotScaleLeft(d, t, n);
    DotSymmetric(d, n);
    assert Dot(Sub(ray.origin, r.point), n) == -Dot(Sub(r.point, ray.origin), n);
  }

  /** A ray (nearly) parallel to the rect never hits it; otherwise the
      rect's candidate is the only point of its plane on the ray, lies on the
      finite rect, and with no candidate the ray meets no point of the rect
      at distance EPSILON or more. */
  lemma {:induction false} RectCandidateIsHit(ray: Ray, r: Rect)
    ensures Abs(Dot(r.normal, ray.direction)) < PARALLEL_EPSILON ==> RectCandidate(ray, r).None?
    ensures var c := RectCandidate(ray, r);
            (c.Some? ==> OnRect(ray, r, c.value.t)) &&
            (c.Some? ==> forall t :: OnPlane(ray, r, t) ==> t == c.value.t)
    ensures Abs(Dot(r.normal, ray.direction)) >= PARALLEL_EPSILON && RectCandidate(ray, r).None? ==>
            forall t :: EPSILON <= t ==> !OnRect(ray, r, t)
  {
    var denom := Dot(r.normal, ray.direction);
    if Abs(denom) >= PARALLEL_EPSILON {
      var t0 := Dot(Sub(r.point, ray.origin), r.normal) / denom;
      assert t0 * denom == Dot(Sub(r.point, ray.origin), r.normal);
      forall t
        ensures OnPlane(ray, r, t) <==> t == t0
      {
        PlaneCrossing(ray, r, t);
        if t * denom == t0 * denom {
          CancelFactor(t, t0, denom);
        }
      }
    }
  }

  lemma CancelFactor(a: real, b: real, k: real)
    requires k != 0.0 && a * k == b * k
    ensures a == b
  {
    assert (a - b) * k == a * k - b * k;
    ZeroProduct(a - b, k);
  }

  /** rect.intersect: overwrite the record with the rect's hit when it is
      strictly closer than the record's; otherwise leave the record as it was. */
  method IntersectRect(ray: Ray, rect: Rect, rec: HitRecord)
    returns (accepted: bool, out: HitRecord)
    ensures !accepted ==> out == rec
    ensures accepted ==> out.hit && EPSILON <= out.t < rec.t && out.normal == rect.normal
    ensures out == Closer(rec, RectCandidate(ray, rect))
  {
    var denom := Dot(rect.normal, ray.direction);
    if Abs(denom) < PARALLEL_EPSILON {
      return false, rec;
    }
    var t := Dot(Sub(rect.point, ray.origin), rect.normal) / denom;
    if t < EPSILON || t >= rec.t {
      return false, rec;
    }
    var p := Add(ray.origin, Mul(ray.direction, t));
    var vHit := Sub(p, rect.point);
    var u := Dot(vHit, rect.u);
    var v := Dot(vHit, rect.v);
    if u < -rect.width / 2.0 || u > rect.width / 2.0 {
      return false, rec;
    }
    if v < -rect.height / 2.0 || v > rect.height / 2.0 {
      return false, rec;
    }
    out := rec.(hit := true, t := t, point := p, normal := rect.normal, mat := rect.mat);
    accepted := true;
  }

  // ---------------------------------------------------------------- closest hit

  /** Offer a candidate to the record: it replaces the record only when it
      is strictly closer. */
  function Closer(rec: HitRecord, c: Option<HitRecord>): (r: HitRecord)
    ensures r.t <= rec.t
    ensures r == rec <==> !(c.Some? && c.value.t < rec.t)
    ensures r != rec ==> c == Some(r)
  {
    if c.Some? && c.value.t < rec.t then c.value else rec
  }
}
