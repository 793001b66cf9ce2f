/** The scene: fixed-capacity arrays of spheres and rects filled once at
    start-up, and the closest-hit search that offers a ray to every
    primitive in turn. */
module Scene {
  import opened XMath
  import opened Intersect

  const MAX_SPHERES: nat := 1
  const MAX_RECTS: nat := 6

  /** The largest finite 32-bit float, the starting distance of a search. */
  const FLT_MAX: real := 340282346638528859811704183484516925440.0

  /** The primitives the renderer reads, in insertion order. */
  datatype SceneView = SceneView(spheres: seq<Sphere>, rects: seq<Rect>)

  predicate WellFormedScene(sc: SceneView) {
    forall i :: 0 <= i < |sc.spheres| ==> WellFormedSphere(sc.spheres[i])
  }

  /** add_rect normalises the normal and both spanning vectors. */
  ghost predicate UnitRect(r: Rect) {
    Dot(r.normal, r.normal) == 1.0 && Dot(r.u, r.u) == 1.0 && Dot(r.v, r.v) == 1.0
  }

  /** Every rect of the scene is normalised as add_rect leaves it. */
  ghost predicate UnitRects(sc: SceneView) {
    forall j :: 0 <= j < |sc.rects| ==> UnitRect(sc.rects[j])
  }

  /** A candidate as the intersection routines produce it: a hit at a
      distance of at least EPSILON. */
  predicate GoodCandidate(c: Option<HitRecord>) {
    c.Some? ==> c.value.hit && c.value.t >= EPSILON
  }

  /** The hits the spheres offer, in order. */
  function SphereCandidates(m: LibM, ray: Ray, ss: seq<Sphere>): (cs: seq<Option<HitRecord>>)
    requires forall i :: 0 <= i < |ss| ==> WellFormedSphere(ss[i])
    ensures |cs| == |ss|
    ensures forall i :: 0 <= i < |ss| ==> cs[i] == SphereCandidate(m, ray, ss[i])
    ensures forall i :: 0 <= i < |ss| ==> GoodCandidate(cs[i]) && (cs[i].Some? ==> cs[i].value.mat == ss[i].mat)
  {
    if ss == [] then []
    else SphereCandidates(m, ray, ss[..|ss| - 1]) + [SphereCandidate(m, ray, ss[|ss| - 1])]
  }

  /** The hits the rects offer, in order. */
  function RectCandidates(ray: Ray, rs: seq<Rect>): (cs: seq<Option<HitRecord>>)
    ensures |cs| == |rs|
    ensures forall i :: 0 <= i < |rs| ==> cs[i] == RectCandidate(ray, rs[i])
    ensures forall i :: 0 <= i < |rs| ==> GoodCandidate(cs[i]) && (cs[i].Some? ==> cs[i].value.mat == rs[i].mat)
  {
    if rs == [] then []
    else RectCandidates(ray, rs[..|rs| - 1]) + [RectCandidate(ray, rs[|rs| - 1])]
  }

  /** Offer the candidates to the record one after the other. */
  function FoldCloser(rec: HitRecord, cs: seq<Option<HitRecord>>): HitRecord
  {
    if cs == [] then rec
    else Closer(FoldCloser(rec, cs[..|cs| - 1]), cs[|cs| - 1])
  }

  /** Offering one candidate more extends the fold by one step. */
  lemma FoldCloserPrefixStep(rec: HitRecord, cs: seq<Option<HitRecord>>, i: int)
    requires 0 <= i < |cs|
    ensures FoldCloser(rec, cs[..i + 1]) == Closer(FoldCloser(rec, cs[..i]), cs[i])
  {
    assert cs[..i + 1][..i] == cs[..i];
  }

  /** After offering every candidate, the record holds the minimum distance
      of the record and the candidates; it is the record unchanged exactly
      when no candidate was strictly closer, and otherwise one of the
      candidates. */
  lemma {:induction false} FoldCloserIsMinimum(rec: HitRecord, cs: seq<Option<HitRecord>>)
    ensures var r := FoldCloser(rec, cs);
            r.t <= rec.t &&
            (forall i :: 0 <= i < |cs| && cs[i].Some? ==> r.t <= cs[i].value.t) &&
            (r == rec <==> forall i :: 0 <= i < |cs| && cs[i].Some? ==> cs[i].value.t >= rec.t) &&
            (r != rec ==> exists i :: 0 <= i < |cs| && cs[i] == Some(r))
  {
    if cs != [] {
      var init := cs[..|cs| - 1];
      var c := cs[|cs| - 1];
      var p := FoldCloser(rec, init);
      FoldCloserIsMinimum(rec, init);
      assert forall i :: 0 <= i < |init| ==> init[i] == cs[i];
      var r := Closer(p, c);
      assert FoldCloser(rec, cs) == r;
      if r != rec && r != p {
        assert cs[|cs| - 1] == Some(r);
      }
      if r != rec && r == p {
        var i :| 0 <= i < |init| && init[i] == Some(r);
        assert cs[i] == Some(r);
      }
    }
  }

  /** Ties go to the earlier candidate: when the fold ends with a candidate,
      it is one that every earlier candidate is strictly farther than. */
  lemma {:induction false} FoldCloserFirstMinimum(rec: HitRecord, cs: seq<Option<HitRecord>>)
    ensures var r := FoldCloser(rec, cs);
            r != rec ==>
              exists i :: 0 <= i < |cs| && cs[i] == Some(r) &&
                forall j :: 0 <= j < i && cs[j].Some? ==> cs[j].value.t > r.t
  {
    if cs != [] {
      var init := cs[..|cs| - 1];
      var c := cs[|cs| - 1];
      var p := FoldCloser(rec, init);
      var r := Closer(p, c);
      assert FoldCloser(rec, cs) == r;
      assert forall j :: 0 <= j < |init| ==> init[j] == cs[j];
      if r != rec {
        if r == p {
          FoldCloserFirstMinimum(rec, init);
          var i :| 0 <= i < |init| && init[i] == Some(r) &&
                   forall j :: 0 <= j < i && init[j].Some? ==> init[j].value.t > r.t;
          assert cs[i] == Some(r);
        } else {
          FoldCloserIsMinimum(rec, init);
          assert c == Some(r) && r.t < p.t;
          assert forall j :: 0 <= j < |cs| - 1 && cs[j].Some? ==> cs[j].value.t > r.t;
        }
      }
    }
  }

  /** The record trace_scene starts from: no hit, at the largest distance. */
  function Reset(rec: HitRecord): HitRecord {
    rec.(hit := false, t := FLT_MAX)
  }

  /** Offering two lists one after the other is offering their concatenation. */
  lemma {:induction false} FoldCloserAppend(rec: HitRecord, a: seq<Option<HitRecord>>, b: seq<Option<HitRecord>>)
    ensures FoldCloser(FoldCloser(rec, a), b) == FoldCloser(rec, a + b)
  {
    if b != [] {
      assert (a + b)[..|a + b| - 1] == a + b[..|b| - 1];
      FoldCloserAppend(rec, a, b[..|b| - 1]);
    } else {
      assert a + b == a;
    }
  }

  /** The material of the i-th primitive, spheres first. */
  function PrimitiveMat(sc: SceneView, i: nat): Material
    requires i < |sc.spheres| + |sc.rects|
  {
    if i < |sc.spheres| then sc.spheres[i].mat else sc.rects[i - |sc.spheres|].mat
  }

  /** Every hit the scene offers a ray: the spheres' first, then the rects'. */
  function AllCandidates(m: LibM, ray: Ray, sc: SceneView): (cs: seq<Option<HitRecord>>)
    requires WellFormedScene(sc)
    ensures |cs| == |sc.spheres| + |sc.rects|
  {
    SphereCandidates(m, ray, sc.spheres) + RectCandidates(ray, sc.rects)
  }

  /** The i-th candidate is the i-th sphere's hit, then the rects' in order. */
  lemma AllCandidatesInOrder(m: LibM, ray: Ray, sc: SceneView)
    requires WellFormedScene(sc)
    ensures var cs := AllCandidates(m, ray, sc);
            (forall i :: 0 <= i < |sc.spheres| ==> cs[i] == SphereCandidate(m, ray, sc.spheres[i])) &&
            (forall j :: 0 <= j < |sc.rects| ==> cs[|sc.spheres| + j] == RectCandidate(ray, sc.rects[j]))
  {
  }

  /** Every candidate is a hit past EPSILON carrying its primitive's material. */
  lemma AllCandidatesGood(m: LibM, ray: Ray, sc: SceneView)
    requires WellFormedScene(sc)
    ensures var cs := AllCandidates(m, ray, sc);
            (forall i :: 0 <= i < |cs| ==> GoodCandidate(cs[i])) &&
            (forall i :: 0 <= i < |cs| && cs[i].Some? ==> cs[i].value.mat == PrimitiveMat(sc, i))
  {
  }

  /** trace_scene as a value: the record after offering the ray to every
      sphere and then to every rect. */
  function Trace(m: LibM, ray: Ray, sc: SceneView, rec: HitRecord): HitRecord
    requires WellFormedScene(sc)
  {
    FoldCloser(FoldCloser(Reset(rec), SphereCandidates(m, ray, sc.spheres)),
               RectCandidates(ray, sc.rects))
  }

  /** A candidate that trace_scene accepts: one closer than FLT_MAX. */
  predicate Accepted(c: Option<HitRecord>) {
    c.Some? && c.value.t < FLT_MAX
  }

  /** trace_scene reports a hit exactly when some primitive offers one
      closer than FLT_MAX; the record then is the hit of such a primitive,
      and its distance is the minimum over all the primitives' hits; with
      no hit the record is the reset one. */
  lemma TraceIsClosestHit(m: LibM, ray: Ray, sc: SceneView, rec: HitRecord)
    requires WellFormedScene(sc)
    ensures var r := Trace(m, ray, sc, rec);
            var cs := AllCandidates(m, ray, sc);
            (r.hit <==> exists i :: 0 <= i < |cs| && Accepted(cs[i])) &&
            (!r.hit ==> r == Reset(rec)) &&
            (r.hit ==> EPSILON <= r.t < FLT_MAX) &&
            (forall i :: 0 <= i < |cs| && cs[i].Some? ==> r.t <= cs[i].value.t) &&
            (r.hit ==> exists i :: 0 <= i < |cs| && cs[i] == Some(r))
  {
    var cs := AllCandidates(m, ray, sc);
    AllCandidatesGood(m, ray, sc);
    FoldCloserAppend(Reset(rec), SphereCandidates(m, ray, sc.spheres), RectCandidates(ray, sc.rects));
    FoldCloserIsMinimum(Reset(rec), cs);
    var r := Trace(m, ray, sc, rec);
    if r != Reset(rec) {
      var i :| 0 <= i < |cs| && cs[i] == Some(r);
      assert GoodCandidate(cs[i]);
    }
  }

  /** Among primitives at the same minimal distance trace_scene keeps the
      first one offered: spheres before rects, each in array order. */
  lemma TraceFirstClosest(m: LibM, ray: Ray, sc: SceneView, rec: HitRecord)
    requires WellFormedScene(sc)
    ensures var r := Trace(m, ray, sc, rec);
            var cs := AllCandidates(m, ray, sc);
            r.hit ==>
              exists i :: 0 <= i < |cs| && cs[i] == Some(r) &&
                forall j :: 0 <= j < i && cs[j].Some? ==> cs[j].value.t > r.t
  {
    var cs := AllCandidates(m, ray, sc);
    FoldCloserAppend(Reset(rec), SphereCandidates(m, ray, sc.spheres), RectCandidates(ray, sc.rects));
    FoldCloserFirstMinimum(Reset(rec), cs);
  }

  /** Which record the fold ends with depends on the starting record only
      through its distance: two starts at the same distance either both
      survive or are both replaced by the same candidate. */
  lemma {:induction false} FoldCloserOnlyReadsT(a: HitRecord, b: HitRecord, cs: seq<Option<HitRecord>>)
    requires a.t == b.t
    ensures (FoldCloser(a, cs) == a) == (FoldCloser(b, cs) == b)
    ensures FoldCloser(a, cs) != a ==> FoldCloser(a, cs) == FoldCloser(b, cs)
  {
    if cs != [] {
      FoldCloserOnlyReadsT(a, b, cs[..|cs| - 1]);
      FoldCloserIsMinimum(a, cs[..|cs| - 1]);
      FoldCloserIsMinimum(b, cs[..|cs| - 1]);
    }
  }

  /** ray_color hands trace_scene an uninitialised record: when something is
      hit, the fields trace_scene does not reset make no difference. */
  lemma TraceIgnoresStartFields(m: LibM, ray: Ray, sc: SceneView, rec1: HitRecord, rec2: HitRecord)
    requires WellFormedScene(sc)
    ensures Trace(m, ray, sc, rec1).hit == Trace(m, ray, sc, rec2).hit
    ensures Trace(m, ray, sc, rec1).hit ==> Trace(m, ray, sc, rec1) == Trace(m, ray, sc, rec2)
  {
    var cs := AllCandidates(m, ray, sc);
    FoldCloserAppend(Reset(rec1), SphereCandidates(m, ray, sc.spheres), RectCandidates(ray, sc.rects));
    FoldCloserAppend(Reset(rec2), SphereCandidates(m, ray, sc.spheres), RectCandidates(ray, sc.rects));
    FoldCloserOnlyReadsT(Reset(rec1), Reset(rec2), cs);
    TraceIsClosestHit(m, ray, sc, rec1);
    TraceIsClosestHit(m, ray, sc, rec2);
  }

  /** The scene as the program keeps it: two fixed-capacity arrays and the
      number of entries of each in use. */
  class Scene {
    var spheres: array<Sphere>
    var numSpheres: nat
    var rects: array<Rect>
    var numRects: nat

    ghost predicate Valid()
      reads this, spheres, rects
    {
      spheres.Length == MAX_SPHERES && rects.Length == MAX_RECTS &&
      numSpheres <= MAX_SPHERES && numRects <= MAX_RECTS &&
      (forall i :: 0 <= i < numSpheres ==> WellFormedSphere(spheres[i])) &&
      (forall j :: 0 <= j < numRects ==> UnitRect(rects[j]))
    }

    /** The entries in use. */
    function View(): (sc: SceneView)
      reads this, spheres, rects
      requires Valid()
      ensures WellFormedScene(sc) && UnitRects(sc)
      ensures |sc.spheres| <= MAX_SPHERES && |sc.rects| <= MAX_RECTS
    {
      SceneView(spheres[..numSpheres], rects[..numRects])
    }

    /** The empty scene, as the zero-initialised globals start out. */
    constructor ()
      ensures Valid() && fresh(spheres) && fresh(rects)
      ensures View() == SceneView([], [])
    {
      spheres := new Sphere[MAX_SPHERES];
      rects := new Rect[MAX_RECTS];
      numSpheres, numRects := 0, 0;
    }

    /** add_sphere: append a sphere while there is room; a full array
        silently drops it. */
    method AddSphere(center: Vec3, radius: real, color: Vec3, refl: real, spec: real)
      requires Valid() && radius != 0.0
      modifies this, spheres
      ensures Valid() && spheres == old(spheres) && rects == old(rects)
      ensures old(numSpheres) < MAX_SPHERES ==>
              numSpheres == old(numSpheres) + 1 &&
              View() == SceneView(old(View().spheres) + [Sphere(center, radius, Material(color, refl, spec))],
                                  old(View().rects))
      ensures old(numSpheres) >= MAX_SPHERES ==>
              numSpheres == old(numSpheres) && spheres[..] == old(spheres[..]) && View() == old(View())
    {
      if numSpheres < MAX_SPHERES {
        spheres[numSpheres] := Sphere(center, radius, Material(color, refl, spec));
        numSpheres := numSpheres + 1;
      }
    }

    /** add_rect: append a rect with its normal and spanning vectors
        normalised while there is room; a full array silently drops it. */
    method AddRect(m: LibM, point: Vec3, normal: Vec3, u: Vec3, v: Vec3,
                   width: real, height: real, color: Vec3, refl: real, spec: real)
      requires Valid() && m.Valid()
      requires normal != Zero && u != Zero && v != Zero
      modifies this, rects
      ensures Valid() && spheres == old(spheres) && rects == old(rects)
      ensures old(numRects) < MAX_RECTS ==>
              numRects == old(numRects) + 1 &&
              View() == SceneView(old(View().spheres),
                                  old(View().rects) + [Rect(point, Norm(m, normal), Norm(m, u), Norm(m, v),
                                                            width, height, Material(color, refl, spec))])
      ensures old(numRects) >= MAX_RECTS ==>
              numRects == old(numRects) && rects[..] == old(rects[..]) && View() == old(View())
    {
      if numRects < MAX_RECTS {
        rects[numRects] := Rect(point, Norm(m, normal), Norm(m, u), Norm(m, v),
                                width, height, Material(color, refl, spec));
        numRects := numRects + 1;
      }
    }

    /** trace_scene: reset the record, offer the ray to every sphere and
        then every rect, and report whether anything was hit. */
    method TraceScene(m: LibM, ray: Ray, rec: HitRecord) returns (hit: bool, closest: HitRecord)
      requires Valid()
      ensures closest == Trace(m, ray, View(), rec)
      ensures hit == closest.hit
    {
      ghost var sCs := SphereCandidates(m, ray, spheres[..numSpheres]);
      ghost var rCs := RectCandidates(ray, rects[..numRects]);
      closest := rec.(hit := false, t := FLT_MAX);
      var i := 0;
      while i < numSpheres
        invariant 0 <= i <= numSpheres
        invariant closest == FoldCloser(Reset(rec), sCs[..i])
      {
        FoldCloserPrefixStep(Reset(rec), sCs, i);
        var accepted, next := IntersectSphere(m, ray, spheres[i], closest);
        closest := next;
        i := i + 1;
      }
      assert sCs[..numSpheres] == sCs;
      ghost var afterSpheres := closest;
      var j := 0;
      while j < numRects
        invariant 0 <= j <= numRects
        invariant closest == FoldCloser(afterSpheres, rCs[..j])
      {
        FoldCloserPrefixStep(afterSpheres, rCs, j);
        var accepted, next := IntersectRect(ray, rects[j], closest);
        closest := next;
        j := j + 1;
      }
      assert rCs[..numRects] == rCs;
      hit := closest.hit;
    }
  }
}
