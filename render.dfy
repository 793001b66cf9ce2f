/** Shading and output: the local lighting model, the recursive
    reflection in ray_color, and the packing of a colour into a pixel. */
module Render {
  import opened XMath
  import opened Intersect
  import opened Scene

  /** The single point light. */
  const LIGHT_POS := Vec3(0.0, 4.0, 0.0)

  // ---- compute_lighting ----

  function FMax(a: real, b: real): (r: real)
    ensures r >= a && r >= b && (r == a || r == b)
  {
    if a >= b then a else b
  }

  /** x raised to the natural power n. */
  function Pow(x: real, n: nat): real
  {
    if n == 0 then 1.0 else x * Pow(x, n - 1)
  }

  lemma {:induction false} PowAdd(x: real, a: nat, b: nat)
    ensures Pow(x, a + b) == Pow(x, a) * Pow(x, b)
  {
    if a > 0 {
      PowAdd(x, a - 1, b);
      assert Pow(x, a + b) == x * Pow(x, (a - 1) + b);
      MulAssoc(x, Pow(x, a - 1), Pow(x, b));
    }
  }

  lemma MulAssoc(a: real, b: real, c: real)
    ensures a * (b * c) == (a * b) * c
  {
  }

  /** The specular term: five successive squarings, which compute the 32nd
      power of a non-negative base. */
  function SpecularPower(x: real): (r: real)
    ensures r == Pow(x, 32)
    ensures r >= 0.0
    ensures 0.0 <= x <= 1.0 ==> r <= 1.0
  {
    var s2 := x * x;
    var s4 := s2 * s2;
    var s8 := s4 * s4;
    var s16 := s8 * s8;
    var s32 := s16 * s16;
    PowAdd(x, 1, 1);
    PowAdd(x, 2, 2);
    PowAdd(x, 4, 4);
    PowAdd(x, 8, 8);
    PowAdd(x, 16, 16);
    UnitSquare(x);
    UnitSquare(s2);
    UnitSquare(s4);
    UnitSquare(s8);
    UnitSquare(s16);
    s32
  }

  lemma UnitSquare(x: real)
    ensures x * x >= 0.0
    ensures 0.0 <= x <= 1.0 ==> x * x <= 1.0
  {
    if 0.0 <= x <= 1.0 {
      assert x * x <= x * 1.0;
    }
  }

  /** Unit direction from a surface point to the light. */
  function LightDir(m: LibM, point: Vec3): (d: Vec3)
    requires m.Valid() && point != LIGHT_POS
    ensures Dot(d, d) == 1.0
    ensures Cross(d, Sub(LIGHT_POS, point)) == Zero && Dot(d, Sub(LIGHT_POS, point)) > 0.0
  {
    assert Sub(LIGHT_POS, point) != Zero;
    Norm(m, Sub(LIGHT_POS, point))
  }

  /** Lambert factor: the cosine between normal and light, cut at zero. */
  function DiffuseFactor(m: LibM, point: Vec3, normal: Vec3): (f: real)
    requires m.Valid() && point != LIGHT_POS
    ensures f >= 0.0 && f >= Dot(normal, LightDir(m, point))
    ensures f == 0.0 || f == Dot(normal, LightDir(m, point))
  {
    FMax(Dot(normal, LightDir(m, point)), 0.0)
  }

  /** Phong factor: the light's mirror direction against the view direction,
      cut at zero and raised to the 32nd power. */
  function SpecularFactor(m: LibM, point: Vec3, normal: Vec3, viewDir: Vec3): (f: real)
    requires m.Valid() && point != LIGHT_POS
    ensures f >= 0.0
    ensures f == Pow(FMax(Dot(viewDir, Reflect(Mul(LightDir(m, point), -1.0), normal)), 0.0), 32)
  {
    var reflectDir := Reflect(Mul(LightDir(m, point), -1.0), normal);
    SpecularPower(FMax(Dot(viewDir, reflectDir), 0.0))
  }

  /** The sum of the three Phong terms, given the diffuse and specular
      factors: ambient 0.2 and diffuse 0.6 of the surface colour, and a
      white highlight scaled by the material's specular strength. */
  function Phong(mat: Material, diff: real, spec: real): Vec3
  {
    var ambient := Mul(mat.color, 0.2);
    var diffuse := Mul(mat.color, diff * 0.6);
    var specular := Vec3(spec * mat.specular, spec * mat.specular, spec * mat.specular);
    Add(Add(ambient, diffuse), specular)
  }

  /** compute_lighting. At the light's own position the light distance is
      zero (a division by zero in C), so that point is excluded. */
  function ComputeLighting(m: LibM, point: Vec3, normal: Vec3, viewDir: Vec3, mat: Material): Vec3
    requires m.Valid() && point != LIGHT_POS
  {
    Phong(mat, DiffuseFactor(m, point, normal), SpecularFactor(m, point, normal, viewDir))
  }

  /** Every channel of a lit surface is at least its ambient share, and the
      diffuse and specular terms only add light. */
  lemma LightingAtLeastAmbient(m: LibM, point: Vec3, normal: Vec3, viewDir: Vec3, mat: Material)
    requires m.Valid() && point != LIGHT_POS
    requires mat.color.x >= 0.0 && mat.color.y >= 0.0 && mat.color.z >= 0.0 && mat.specular >= 0.0
    ensures var c := ComputeLighting(m, point, normal, viewDir, mat);
            c.x >= 0.2 * mat.color.x && c.y >= 0.2 * mat.color.y && c.z >= 0.2 * mat.color.z
  {
    PhongAtLeastAmbient(mat, DiffuseFactor(m, point, normal), SpecularFactor(m, point, normal, viewDir));
  }

  lemma PhongAtLeastAmbient(mat: Material, diff: real, spec: real)
    requires mat.color.x >= 0.0 && mat.color.y >= 0.0 && mat.color.z >= 0.0 && mat.specular >= 0.0
    requires diff >= 0.0 && spec >= 0.0
    ensures var c := Phong(mat, diff, spec);
            c.x >= 0.2 * mat.color.x && c.y >= 0.2 * mat.color.y && c.z >= 0.2 * mat.color.z
  {
    PhongChannel(mat, diff, spec, 0);
    PhongChannel(mat, diff, spec, 1);
    PhongChannel(mat, diff, spec, 2);
  }

  lemma PhongChannel(mat: Material, diff: real, spec: real, c: nat)
    requires c < 3 && Comp(mat.color, c) >= 0.0 && mat.specular >= 0.0 && diff >= 0.0 && spec >= 0.0
    ensures Comp(Phong(mat, diff, spec), c) >= 0.2 * Comp(mat.color, c)
  {
    AmbientFloor(Comp(mat.color, c), diff * 0.6, spec, mat.specular);
  }

  lemma AmbientFloor(c: real, d: real, s: real, k: real)
    requires c >= 0.0 && d >= 0.0 && s >= 0.0 && k >= 0.0
    ensures c * 0.2 + c * d + s * k >= 0.2 * c
  {
    NonNegProduct(c, d);
    NonNegProduct(s, k);
  }

  lemma NonNegProduct(a: real, b: real)
    requires a >= 0.0 && b >= 0.0
    ensures a * b >= 0.0
  {
  }

  /** Two unit vectors have a dot product of at most one. */
  lemma UnitDotBound(a: Vec3, b: Vec3)
    requires Dot(a, a) == 1.0 && Dot(b, b) == 1.0
    ensures Dot(a, b) <= 1.0
  {
    var w := Sub(a, b);
    DotSelf(w);
    DotSubLeft(a, b, w);
    DotSymmetric(a, w);
    DotSymmetric(b, w);
    DotSubLeft(a, b, a);
    DotSubLeft(a, b, b);
    DotSymmetric(a, b);
  }

  /** Under a unit normal and a unit view direction both the diffuse and the
      specular factor are at most one. */
  lemma FactorsAtMostOne(m: LibM, point: Vec3, normal: Vec3, viewDir: Vec3)
    requires m.Valid() && point != LIGHT_POS
    requires Dot(normal, normal) == 1.0 && Dot(viewDir, viewDir) == 1.0
    ensures DiffuseFactor(m, point, normal) <= 1.0
    ensures SpecularFactor(m, point, normal, viewDir) <= 1.0
  {
    var l := LightDir(m, point);
    UnitDotBound(normal, l);
    NegateUnit(l);
    ReflectPreservesLength(Mul(l, -1.0), normal);
    var reflectDir := Reflect(Mul(l, -1.0), normal);
    UnitDotBound(viewDir, reflectDir);
    var power := SpecularPower(FMax(Dot(viewDir, reflectDir), 0.0));
  }

  /** A material whose colour channels lie in [0, 1] and whose specular
      strength lies in [0, ks]. */
  predicate MaterialInRange(mat: Material, ks: real) {
    0.0 <= mat.color.x <= 1.0 && 0.0 <= mat.color.y <= 1.0 && 0.0 <= mat.color.z <= 1.0 &&
    0.0 <= mat.specular <= ks
  }

  /** For colours in [0, 1] and specular strength at most ks, the lighting
      under a unit normal and a unit view direction has every channel in
      [0, 0.8 + ks]: ambient and diffuse add at most 0.8 of the colour, the
      highlight at most ks. */
  lemma LightingBounded(m: LibM, point: Vec3, normal: Vec3, viewDir: Vec3, mat: Material, ks: real)
    requires m.Valid() && point != LIGHT_POS
    requires Dot(normal, normal) == 1.0 && Dot(viewDir, viewDir) == 1.0
    requires MaterialInRange(mat, ks)
    ensures InBox(ComputeLighting(m, point, normal, viewDir, mat), 0.0, 0.8 + ks)
  {
    var diff := DiffuseFactor(m, point, normal);
    var spec := SpecularFactor(m, point, normal, viewDir);
    FactorsAtMostOne(m, point, normal, viewDir);
    PhongBounded(mat, diff, spec, ks, 0);
    PhongBounded(mat, diff, spec, ks, 1);
    PhongBounded(mat, diff, spec, ks, 2);
  }

  lemma PhongBounded(mat: Material, diff: real, spec: real, ks: real, c: nat)
    requires c < 3 && 0.0 <= Comp(mat.color, c) <= 1.0 && 0.0 <= mat.specular <= ks
    requires 0.0 <= diff <= 1.0 && 0.0 <= spec <= 1.0
    ensures 0.0 <= Comp(Phong(mat, diff, spec), c) <= 0.8 + ks
  {
    var k := Comp(mat.color, c);
    assert Comp(Phong(mat, diff, spec), c) == k * 0.2 + k * (diff * 0.6) + spec * mat.specular;
    ChannelBounded(k, diff * 0.6, spec, mat.specular, ks);
  }

  /** One Phong channel: colour k, diffuse share d, specular factor spec
      and strength s. */
  lemma ChannelBounded(k: real, d: real, spec: real, s: real, ks: real)
    requires 0.0 <= k <= 1.0 && 0.0 <= d <= 0.6 && 0.0 <= spec <= 1.0 && 0.0 <= s <= ks
    ensures 0.0 <= k * 0.2 + k * d + spec * s <= 0.8 + ks
  {
    AmbientFloor(k, d, spec, s);
    ProductBelow(k, d);
    ProductBelow(spec, s);
    SumBelow(k * 0.2, k * d, spec * s, ks);
  }

  lemma SumBelow(a: real, b: real, c: real, ks: real)
    requires a <= 0.2 && b <= 0.6 && c <= ks
    ensures a + b + c <= 0.8 + ks
  {
  }

  lemma ProductBelow(a: real, b: real)
    requires 0.0 <= a <= 1.0 && b >= 0.0
    ensures a * b <= b
  {
    NonNegProduct(1.0 - a, b);
  }

  // ---- ray_color ----

  /** The local shading ray_color applies at a hit: point, normal, view
      direction and material to a colour. */
  type Lighting = (Vec3, Vec3, Vec3, Material) -> Vec3

  /** The record ray_color declares without initialising; only its hit and
      distance are ever read before trace_scene writes them. */
  const Uninitialised := HitRecord(false, 0.0, Zero, Zero, Material(Zero, 0.0, 0.0))

  /** ray_color: shade the closest hit and, while depth allows and the
      surface reflects, blend in the colour seen along the mirror ray. */
  function RayColor(m: LibM, sc: SceneView, lighting: Lighting, ray: Ray, depth: int): Vec3
    requires WellFormedScene(sc)
    decreases depth
  {
    var rec := Trace(m, ray, sc, Uninitialised);
    if rec.hit then
      var viewDir := Mul(ray.direction, -1.0);
      var color := lighting(rec.point, rec.normal, viewDir, rec.mat);
      if depth > 1 && rec.mat.reflectivity > 0.0 then
        var reflectRay := Ray(rec.point, Reflect(ray.direction, rec.normal));
        var reflectColor := RayColor(m, sc, lighting, reflectRay, depth - 1);
        Add(Mul(color, 1.0 - rec.mat.reflectivity), Mul(reflectColor, rec.mat.reflectivity))
      else
        color
    else
      Zero
  }

  /** A miss is black; a hit with no bounce left or a non-reflective
      material is exactly the local lighting. */
  lemma RayColorBaseCases(m: LibM, sc: SceneView, lighting: Lighting, ray: Ray, depth: int)
    requires WellFormedScene(sc)
    ensures var rec := Trace(m, ray, sc, Uninitialised);
            var c := RayColor(m, sc, lighting, ray, depth);
            (!rec.hit ==> c == Zero) &&
            (rec.hit && (depth <= 1 || rec.mat.reflectivity <= 0.0) ==>
               c == lighting(rec.point, rec.normal, Mul(ray.direction, -1.0), rec.mat))
  {
  }

  /** Colour v lies in the box [lo, hi] on every channel. */
  predicate InBox(v: Vec3, lo: real, hi: real) {
    lo <= v.x <= hi && lo <= v.y <= hi && lo <= v.z <= hi
  }

  /** Channel c of a colour: red, green or blue. */
  function Comp(v: Vec3, c: nat): real
    requires c < 3
  {
    if c == 0 then v.x else if c == 1 then v.y else v.z
  }

  /** Every primitive's reflectivity is a blend weight in [0, 1]. */
  predicate BlendWeights(sc: SceneView) {
    (forall i :: 0 <= i < |sc.spheres| ==> 0.0 <= sc.spheres[i].mat.reflectivity <= 1.0) &&
    (forall j :: 0 <= j < |sc.rects| ==> 0.0 <= sc.rects[j].mat.reflectivity <= 1.0)
  }

  /** mat is the material of one of the scene's primitives. */
  predicate SceneMaterial(sc: SceneView, mat: Material) {
    exists i :: 0 <= i < |sc.spheres| + |sc.rects| && PrimitiveMat(sc, i) == mat
  }

  /** The local lighting stays in the box [lo, hi] for every call ray_color
      can make: a material of the scene, a unit normal and a unit view
      direction. */
  ghost predicate LightingInBox(sc: SceneView, lighting: Lighting, lo: real, hi: real) {
    forall p, n, v, mat :: SceneMaterial(sc, mat) && Dot(n, n) == 1.0 && Dot(v, v) == 1.0 ==>
      InBox(lighting(p, n, v, mat), lo, hi)
  }

  /** If the local lighting stays in a box around black for the calls
      ray_color makes, and every reflectivity is in [0, 1], the reflections
      only blend colours inside the box, so the colour along a unit
      direction stays in it at any depth. */
  lemma {:induction false} RayColorInBox(m: LibM, sc: SceneView, lighting: Lighting, ray: Ray, depth: int, lo: real, hi: real)
    requires m.Valid() && WellFormedScene(sc) && UnitRects(sc) && BlendWeights(sc)
    requires Dot(ray.direction, ray.direction) == 1.0
    requires lo <= 0.0 <= hi
    requires LightingInBox(sc, lighting, lo, hi)
    ensures InBox(RayColor(m, sc, lighting, ray, depth), lo, hi)
    decreases depth
  {
    var rec := Trace(m, ray, sc, Uninitialised);
    HitShading(m, sc, lighting, ray, lo, hi);
    if rec.hit && depth > 1 && rec.mat.reflectivity > 0.0 {
      var color := lighting(rec.point, rec.normal, Mul(ray.direction, -1.0), rec.mat);
      var reflectRay := Ray(rec.point, Reflect(ray.direction, rec.normal));
      RayColorInBox(m, sc, lighting, reflectRay, depth - 1, lo, hi);
      BlendInBox(color, RayColor(m, sc, lighting, reflectRay, depth - 1), rec.mat.reflectivity, lo, hi);
    }
  }

  /** At a hit along a unit direction ray_color's local colour is in the
      box, the mirror direction is again a unit vector, and the
      reflectivity is a blend weight. */
  lemma HitShading(m: LibM, sc: SceneView, lighting: Lighting, ray: Ray, lo: real, hi: real)
    requires m.Valid() && WellFormedScene(sc) && UnitRects(sc) && BlendWeights(sc)
    requires Dot(ray.direction, ray.direction) == 1.0
    requires LightingInBox(sc, lighting, lo, hi)
    ensures var rec := Trace(m, ray, sc, Uninitialised);
            rec.hit ==>
              InBox(lighting(rec.point, rec.normal, Mul(ray.direction, -1.0), rec.mat), lo, hi) &&
              Dot(Reflect(ray.direction, rec.normal), Reflect(ray.direction, rec.normal)) == 1.0 &&
              0.0 <= rec.mat.reflectivity <= 1.0
  {
    var rec := Trace(m, ray, sc, Uninitialised);
    HitFacts(m, ray, sc);
    HitReflectivity(m, ray, sc);
    if rec.hit {
      NegateUnit(ray.direction);
      ReflectPreservesLength(ray.direction, rec.normal);
    }
  }

  /** A hit along a unit direction carries one of the scene's materials and
      a unit normal. */
  lemma HitFacts(m: LibM, ray: Ray, sc: SceneView)
    requires m.Valid() && WellFormedScene(sc) && UnitRects(sc)
    requires Dot(ray.direction, ray.direction) == 1.0
    ensures var rec := Trace(m, ray, sc, Uninitialised);
            rec.hit ==> SceneMaterial(sc, rec.mat) && Dot(rec.normal, rec.normal) == 1.0
  {
    var rec := Trace(m, ray, sc, Uninitialised);
    TraceIsClosestHit(m, ray, sc, Uninitialised);
    if rec.hit {
      var cs := AllCandidates(m, ray, sc);
      AllCandidatesGood(m, ray, sc);
      AllCandidatesInOrder(m, ray, sc);
      var i :| 0 <= i < |cs| && cs[i] == Some(rec);
      assert rec.mat == PrimitiveMat(sc, i);
      if i < |sc.spheres| {
        SphereHitNormal(m, ray, sc.spheres[i]);
      } else {
        assert UnitRect(sc.rects[i - |sc.spheres|]);
      }
    }
  }

  /** compute_lighting as the lighting ray_color applies. The C code divides
      by a zero light distance at the light's own position and yields NaN
      there; the model shades that single point black. */
  function Shading(m: LibM): Lighting
    requires m.Valid()
  {
    (p: Vec3, n: Vec3, v: Vec3, mat: Material) =>
      if p == LIGHT_POS then Zero else ComputeLighting(m, p, n, v, mat)
  }

  /** Every primitive's material is in range for specular bound ks. */
  predicate MaterialsInRange(sc: SceneView, ks: real) {
    forall i :: 0 <= i < |sc.spheres| + |sc.rects| ==> MaterialInRange(PrimitiveMat(sc, i), ks)
  }

  /** ray_color with compute_lighting: when every colour channel of the
      scene is in [0, 1], every specular strength in [0, ks] and every
      reflectivity in [0, 1], the traced colour along a unit direction has
      every channel in [0, 0.8 + ks], at any depth. */
  lemma RayColorShadedInBox(m: LibM, sc: SceneView, ray: Ray, depth: int, ks: real)
    requires m.Valid() && WellFormedScene(sc) && UnitRects(sc) && BlendWeights(sc)
    requires 0.0 <= ks && MaterialsInRange(sc, ks)
    requires Dot(ray.direction, ray.direction) == 1.0
    ensures InBox(RayColor(m, sc, Shading(m), ray, depth), 0.0, 0.8 + ks)
  {
    var shade := Shading(m);
    forall p: Vec3, n: Vec3, v: Vec3, mat: Material |
        SceneMaterial(sc, mat) && Dot(n, n) == 1.0 && Dot(v, v) == 1.0
      ensures InBox(shade(p, n, v, mat), 0.0, 0.8 + ks)
    {
      var i :| 0 <= i < |sc.spheres| + |sc.rects| && PrimitiveMat(sc, i) == mat;
      if p != LIGHT_POS {
        LightingBounded(m, p, n, v, mat, ks);
      }
    }
    RayColorInBox(m, sc, shade, ray, depth, 0.0, 0.8 + ks);
  }

  /** The reflectivity of a hit is one of the scene's blend weights. */
  lemma HitReflectivity(m: LibM, ray: Ray, sc: SceneView)
    requires WellFormedScene(sc) && BlendWeights(sc)
    ensures var rec := Trace(m, ray, sc, Uninitialised);
            rec.hit ==> 0.0 <= rec.mat.reflectivity <= 1.0
  {
    var rec := Trace(m, ray, sc, Uninitialised);
    TraceIsClosestHit(m, ray, sc, Uninitialised);
    if rec.hit {
      var cs := AllCandidates(m, ray, sc);
      AllCandidatesGood(m, ray, sc);
      var i :| 0 <= i < |cs| && cs[i] == Some(rec);
      assert rec.mat == PrimitiveMat(sc, i);
    }
  }

  lemma BlendInBox(a: Vec3, b: Vec3, k: real, lo: real, hi: real)
    requires InBox(a, lo, hi) && InBox(b, lo, hi) && 0.0 <= k <= 1.0
    ensures InBox(Add(Mul(a, 1.0 - k), Mul(b, k)), lo, hi)
  {
    BlendChannel(a, b, k, lo, hi, 0);
    BlendChannel(a, b, k, lo, hi, 1);
    BlendChannel(a, b, k, lo, hi, 2);
  }

  lemma BlendChannel(a: Vec3, b: Vec3, k: real, lo: real, hi: real, c: nat)
    requires c < 3 && lo <= Comp(a, c) <= hi && lo <= Comp(b, c) <= hi && 0.0 <= k <= 1.0
    ensures lo <= Comp(Add(Mul(a, 1.0 - k), Mul(b, k)), c) <= hi
  {
    Blend(Comp(a, c), Comp(b, c), k, lo, hi);
  }

  /** A convex combination of two values in [lo, hi] stays in [lo, hi]. */
  lemma Blend(a: real, b: real, k: real, lo: real, hi: real)
    requires lo <= a <= hi && lo <= b <= hi && 0.0 <= k <= 1.0
    ensures lo <= a * (1.0 - k) + b * k <= hi
  {
    BlendAbove(a, b, 1.0 - k, k, lo);
    BlendAbove(-a, -b, 1.0 - k, k, -hi);
  }

  lemma BlendAbove(a: real, b: real, j: real, k: real, lo: real)
    requires lo <= a && lo <= b && j >= 0.0 && k >= 0.0 && j + k == 1.0
    ensures lo <= a * j + b * k
    ensures -a * j + -b * k == -(a * j + b * k)
  {
    NonNegProduct(a - lo, j);
    NonNegProduct(b - lo, k);
    assert (a - lo) * j + (b - lo) * k == a * j + b * k - lo * (j + k);
  }

  // ---- color_to_uint32 ----

  function Clamp01(x: real): (r: real)
    ensures 0.0 <= r <= 1.0
    ensures 0.0 <= x <= 1.0 ==> r == x
    ensures x < 0.0 ==> r == 0.0
    ensures x > 1.0 ==> r == 1.0
  {
    var a := if x < 0.0 then 0.0 else x;
    if a > 1.0 then 1.0 else a
  }

  /** One 8-bit channel: the clamped value scaled by 255 and truncated. */
  function Channel(x: real): (b: int)
    ensures 0 <= b <= 255
    ensures b as real <= Clamp01(x) * 255.0 < b as real + 1.0
    ensures x <= 0.0 ==> b == 0
    ensures x >= 1.0 ==> b == 255
  {
    var s := Clamp01(x) * 255.0;
    assert 0.0 <= s <= 255.0;
    s.Floor
  }

  /** Brighter input never gives a darker channel. */
  lemma ChannelMonotone(x: real, y: real)
    requires x <= y
    ensures Channel(x) <= Channel(y)
  {
  }

  /** color_to_uint32: red in bits 16-23, green in 8-15, blue in 0-7. */
  function ColorToUint32(c: Vec3): (p: bv32)
    ensures p <= 0xFF_FFFF
    ensures p >> 16 == Channel(c.x) as bv32
    ensures (p >> 8) & 0xFF == Channel(c.y) as bv32
    ensures p & 0xFF == Channel(c.z) as bv32
  {
    var r := Channel(c.x) as bv32;
    var g := Channel(c.y) as bv32;
    var b := Channel(c.z) as bv32;
    PackUnpack(r, g, b);
    (r << 16) | (g << 8) | b
  }

  lemma PackUnpack(r: bv32, g: bv32, b: bv32)
    requires r <= 0xFF && g <= 0xFF && b <= 0xFF
    ensures var p := (r << 16) | (g << 8) | b;
            p <= 0xFF_FFFF && p >> 16 == r && (p >> 8) & 0xFF == g && p & 0xFF == b
  {
  }
}
