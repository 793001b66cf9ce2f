# A verified model of a small CPU ray tracer

The program renders a scene of spheres and finite rectangles. It has one
point light, Phong shading and up to two mirror reflections (three levels
of tracing; the last level never reflects).
A fly-through camera looks into the scene. This project models its core
in Dafny, with every 32-bit `float` written as an exact `real`:

- `xmath.dfy` (module `XMath`) models the inline vector algebra of
  `xMath.h`: `add`, `sub`, `mul`, `vdiv`, `dot`, `len`, `norm`, `reflect`
  and `cross`. It proves the algebraic identities of these operations.
  - `sqrtf`, `sinf` and `cosf` are a `LibM` value passed as a parameter.
  - `LibM.Valid()` states the only facts the proofs use: the square root
    of a non-negative number is non-negative and squares back to it;
    sin² + cos² = 1; cos is positive on [-1.57, 1.57].
  - The `vec3` helper is the `Vec3` datatype constructor itself.
- `intersect.dfy` (module `Intersect`) models the primitives and the two
  intersection routines of `main.c`.
  - The `HitRecord` that C updates through a pointer is a value passed
    in and returned.
  - Each routine is proved equal to offering the primitive's candidate
    hit to the record: the record takes the candidate only if it is
    strictly closer (`Closer`).
  - The candidates are proved geometrically correct. For a unit
    direction, the sphere's distance is the first point of the sphere at
    least EPSILON along the ray, and its normal is a unit vector. The rectangle's point is the only crossing of its plane and lies
    within its extents.
- `scene.dfy` (module `Scene`) models the scene.
  - The fixed-capacity global arrays are the class `Scene`.
  - `add_sphere` and `add_rect` are methods on it.
  - `trace_scene` is a method with two loops, proved against the fold
    `Trace`. `Trace` is proved to return the minimum-distance accepted
    hit.
- `render.dfy` (module `Render`) models the shading and the output.
  - `compute_lighting` is modelled, including the five squarings that
    compute the 32nd power.
  - `ray_color` is recursive. It terminates because `depth` strictly
    decreases. With colours in [0, 1], specular strengths in [0, ks] and
    reflectivities in [0, 1], its colour along a unit direction stays in
    [0, 0.8 + ks] on every channel.
  - `color_to_uint32` clamps each channel and packs the three into 24
    bits.
- `camera.dfy` (module `XCamera`) models the `xCamera` struct of
  `xCamera.h` as a class. Its methods are init, update, move and rotate,
  plus the `GetRay` query.
  - The basis that update rebuilds is proved orthonormal.
  - Pitch is proved to stay within [-89, 89] across any sequence of
    rotations.

## Model

| member | source | states |
|---|---|---|
| XMath.Add | xMath.h:19-21 | componentwise sum; no contract of its own, its laws are SubAddCancel and DotAddLeft |
| XMath.Sub | xMath.h:23-25 | componentwise difference; no contract of its own, its laws are SubAddCancel and DotSubLeft |
| XMath.Mul | xMath.h:27-29 | scaling by t; no contract of its own, its laws are VDiv's round trip and DotScaleLeft |
| XMath.Dot | xMath.h:35-37 | the scalar product; no contract of its own, its laws are DotSymmetric, the distributive lemmas and CrossLagrange |
| XMath.Reflect | xMath.h:47-49 | v minus twice its component along n; no contract of its own, its laws are ReflectFlipsNormal, ReflectInvolution and ReflectPreservesLength |
| XMath.VDiv | xMath.h:31-33 | dividing by a non-zero t is undone by multiplying by t |
| XMath.Len | xMath.h:39-41 | len(v) is non-negative, its square is dot(v,v), and it is zero exactly for the zero vector |
| XMath.Norm | xMath.h:43-45 | norm of a non-zero v is a unit vector parallel to v and pointing the same way (cross product zero, positive dot product) |
| XMath.Cross | xMath.h:51-57 | cross(a,b) is orthogonal to both a and b |
| XMath.SubAddCancel | xMath.h:19-25 | sub(add(a,b), b) == a |
| XMath.DotSymmetric | xMath.h:35-37 | dot(a,b) == dot(b,a) |
| XMath.DotScaleLeft | xMath.h:27-37 | dot(mul(v,t), w) == t * dot(v,w) |
| XMath.DotSubLeft | xMath.h:23-25 | dot distributes over sub |
| XMath.DotAddLeft | xMath.h:19-21 | dot distributes over add |
| XMath.CrossAntiSymmetric | xMath.h:51-57 | cross(a,b) == -cross(b,a) and cross(a,a) is zero |
| XMath.CrossLagrange | xMath.h:51-57 | the squared length of cross(a,b) is dot(a,a)·dot(b,b) − dot(a,b)² |
| XMath.ReflectFlipsNormal | xMath.h:47-49 | for a unit n, reflect negates the component along n |
| XMath.ReflectInvolution | xMath.h:47-49 | for a unit n, reflecting twice gives back v |
| XMath.ReflectPreservesLength | xMath.h:47-49 | for a unit n, reflect preserves dot(v,v) |
| Intersect.SphereRoot | main.c:256-268 | a distance the sphere offers is at least 0.001 |
| Intersect.SphereCandidate | main.c:256-276 | the sphere offers a hit exactly when SphereRoot gives a distance; the hit is at that distance, at the point that distance along the ray, with the sphere's material, and its normal times the radius is point − centre |
| Intersect.SphereHitsAt | main.c:256-262 | for a unit direction: with a negative discriminant no point of the ray is on the sphere; otherwise the ray meets it exactly at −b ± sqrt(disc) |
| Intersect.SphereRootIsFirstHit | main.c:256-268 | for a unit direction, the distance chosen (near root, else far root) lies on the sphere, and no point of the sphere lies between 0.001 and it; with no distance the ray meets the sphere nowhere at or past 0.001 |
| Intersect.SphereHitNormal | main.c:275 | for a unit direction and a non-zero radius, the normal of the sphere's hit is a unit vector |
| Intersect.UnitFromScaled | main.c:275 | a vector that, scaled by a non-zero k, gives a vector of squared length k² is a unit vector |
| Intersect.IntersectSphere | main.c:251-278 | a rejected call leaves the record unchanged; an accepted one sets hit and a distance in [0.001, old t); the new record is the sphere's candidate offered to the old one |
| Intersect.RectCandidate | main.c:285-303 | a rect's hit is a hit at distance ≥ 0.001, at the point that distance along the ray, with the rect's normal and material |
| Intersect.PlaneCrossing | main.c:285-288 | the ray meets the plane at t exactly when t·(n·d) == (P−o)·n |
| Intersect.RectCandidateIsHit | main.c:285-297 | a ray with \|n·d\| < 0.0001 never hits; a hit lies on the plane within ±width/2 along u and ±height/2 along v, and is the plane's only crossing; with no hit (and a non-parallel ray) no point of the rect lies at or past 0.001 |
| Intersect.IntersectRect | main.c:280-305 | a rejected call leaves the record unchanged; an accepted one sets hit, a distance in [0.001, old t) and the rect's normal; the new record is the rect's candidate offered to the old one |
| Intersect.Closer | main.c:270-277 | the record's distance never grows; it is kept exactly when the candidate is not strictly closer, and otherwise replaced by the candidate |
| Scene.SphereCandidates | main.c:85 | one candidate per sphere, in order, each a hit past 0.001 with the sphere's material |
| Scene.RectCandidates | main.c:86 | one candidate per rect, in order, each a hit past 0.001 with the rect's material |
| Scene.Reset | main.c:83-84 | the record trace_scene starts from: hit false and t = FLT_MAX, other fields untouched; no contract of its own, used by TraceIsClosestHit and TraceIgnoresStartFields |
| Scene.FoldCloser | main.c:85-86 | one loop of trace_scene: offer each candidate in order through Closer; no contract of its own, its meaning is FoldCloserIsMinimum, FoldCloserFirstMinimum and FoldCloserAppend |
| Scene.FoldCloserFirstMinimum | main.c:85-86 | when the fold ends with a candidate, every earlier candidate is strictly farther: ties go to the first one offered |
| Scene.Trace | main.c:79-88 | reset the record, then offer every sphere's and then every rect's candidate; no contract of its own, its meaning is TraceIsClosestHit |
| Scene.FoldCloserPrefixStep | main.c:85-86 | offering one more candidate is one more Closer step |
| Scene.FoldCloserIsMinimum | main.c:85-86 | after offering every candidate the distance is at most the start's and at most every candidate's; the record is the start exactly when no candidate was strictly closer, and otherwise is one of the candidates |
| Scene.FoldCloserAppend | main.c:85-86 | offering the spheres' candidates and then the rects' is offering their concatenation |
| Scene.AllCandidates | main.c:85-86 | one candidate per primitive |
| Scene.AllCandidatesInOrder | main.c:85-86 | the spheres' candidates come first, then the rects', each in array order |
| Scene.AllCandidatesGood | main.c:85-86 | every candidate is a hit past 0.001 carrying its primitive's material |
| Scene.TraceIsClosestHit | main.c:79-88 | the result reports a hit exactly when some primitive offers one closer than FLT_MAX; that hit is one primitive's, lies in [0.001, FLT_MAX) and is no farther than any primitive's hit; with no hit the record is the reset one (hit false, t = FLT_MAX) |
| Scene.TraceFirstClosest | main.c:79-88 | among primitives at the same minimal distance trace_scene reports the first offered, spheres before rects, each in array order |
| Scene.FoldCloserOnlyReadsT | main.c:83-86 | the fold depends on the start record only through its distance |
| Scene.TraceIgnoresStartFields | main.c:123-128 | the uninitialised fields of the record handed to trace_scene never change whether it hits, and when it hits the returned record is the same; on a miss the start's point, normal and material remain in the record |
| Scene.Scene.View | main.c:50-53 | the entries in use never exceed MAX_SPHERES / MAX_RECTS, every sphere in use has a non-zero radius, and every rect in use has unit normal, u and v |
| Scene.Scene.constructor | main.c:50-53 | the scene starts empty |
| Scene.Scene.AddSphere | main.c:55-63 | below capacity the sphere is appended at index num_spheres and earlier entries are unchanged; at capacity the call changes nothing; the count never passes MAX_SPHERES |
| Scene.Scene.AddRect | main.c:65-77 | below capacity the rect is appended with its normal, u and v normalised and earlier entries are unchanged; at capacity the call changes nothing; the count never passes MAX_RECTS |
| Scene.Scene.TraceScene | main.c:79-88 | the two loops compute Trace over the entries in use, and the result is the record's hit flag |
| Render.FMax | main.c:104 | fmaxf returns the larger of its arguments |
| Render.PowAdd | main.c:110-116 | x^(a+b) == x^a · x^b |
| Render.SpecularPower | main.c:110-116 | five squarings compute dot_vr^32; the result is non-negative and at most 1 for a base in [0,1] |
| Render.LightDir | main.c:96-99 | the direction to the light is a unit vector parallel to light − point and pointing the same way |
| Render.DiffuseFactor | main.c:103-104 | the diffuse factor is at least 0 and at least the cosine between normal and light direction, and equals one of the two |
| Render.SpecularFactor | main.c:107-116 | the specular factor is non-negative and equals max(dot(view, reflect(−light, normal)), 0) to the 32nd power |
| Render.ComputeLighting | main.c:90-121 | ambient + diffuse + specular of the Phong split; no contract of its own, its meaning is LightingAtLeastAmbient and LightingBounded |
| Render.PhongAtLeastAmbient | main.c:101-120 | with non-negative factors, colour and specular strength, each channel is at least its ambient share 0.2·colour |
| Render.LightingAtLeastAmbient | main.c:90-121 | compute_lighting never darkens a non-negative material below its ambient share |
| Render.UnitDotBound | main.c:103-108 | two unit vectors have a dot product of at most 1 |
| Render.FactorsAtMostOne | main.c:101-116 | under a unit normal and a unit view direction the diffuse and specular factors are at most 1 |
| Render.PhongBounded | main.c:101-120 | with colour in [0,1], factors in [0,1] and specular strength in [0,ks], each channel is in [0, 0.8 + ks] |
| Render.LightingBounded | main.c:90-121 | compute_lighting of a material with colour in [0,1] and specular strength in [0,ks], under a unit normal and view direction, has every channel in [0, 0.8 + ks] |
| Render.Shading | main.c:90-121 | compute_lighting as the lighting ray_color applies at main.c:131, black at the light's own position; no contract of its own, its bound is RayColorShadedInBox |
| Render.RayColor | main.c:123-143 | trace, shade the hit, and blend in the mirror ray's colour by the reflectivity while depth > 1; no contract of its own, its meaning is RayColorBaseCases, RayColorInBox and RayColorShadedInBox |
| Render.RayColorBaseCases | main.c:123-143 | a miss returns (0,0,0); a hit with depth ≤ 1 or reflectivity ≤ 0 returns exactly the local lighting |
| Render.RayColorInBox | main.c:123-143 | for a unit direction, reflectivities in [0,1] and a lighting that stays in a box around black for every scene material, unit normal and unit view direction, the colour stays in the box at any depth |
| Render.HitFacts | main.c:128-131 | a hit along a unit direction carries one of the scene's materials and a unit normal |
| Render.HitShading | main.c:128-136 | at such a hit the local colour is in the box, the mirror direction is a unit vector and the reflectivity is in [0,1] |
| Render.RayColorShadedInBox | main.c:90-143 | ray_color with compute_lighting, for a unit direction, colours in [0,1], specular strengths in [0,ks] and reflectivities in [0,1], has every channel in [0, 0.8 + ks] at any depth |
| Render.HitReflectivity | main.c:128-133 | the material of a hit is a primitive's, so its reflectivity is in [0,1] when all are |
| Render.BlendInBox | main.c:138 | the reflection blend of two colours in a box stays in the box |
| Render.Blend | main.c:138 | a convex combination of two values in [lo, hi] stays in [lo, hi] |
| Render.Clamp01 | main.c:148-156 | the channel is clamped to [0,1]: negatives to 0, values above 1 to 1, in-range values unchanged |
| Render.Channel | main.c:157-159 | each 8-bit channel is in [0,255] and is the clamped value times 255 truncated (b ≤ clamp(x)·255 < b + 1), 0 for inputs ≤ 0 and 255 for inputs ≥ 1 |
| Render.ChannelMonotone | main.c:148-159 | a brighter input never gives a smaller channel |
| Render.ColorToUint32 | main.c:145-160 | the packed pixel is at most 0xFFFFFF, with red in bits 16-23, green in 8-15 and blue in 0-7 |
| XCamera.ClampPitch | xCamera.h:92-93 | the pitch ends in [-89, 89]; a pitch in range is unchanged and one outside it goes to the nearer limit |
| XCamera.FrontDirFacts | xCamera.h:98-102 | the spherical front vector is a unit vector, and at a pitch in range it is not vertical |
| XCamera.BasisFor | xCamera.h:95-106 | front, right, up are orthonormal; front points along the yaw/pitch direction; right is a positive rescaling of cross(front, (0,1,0)) and horizontal; up is cross(right, front) |
| XCamera.UnitCross | xCamera.h:106 | the cross product of two orthogonal unit vectors is a unit vector |
| XCamera.Camera.constructor | xCamera.h:80-87 | init gives position (0,0,0), yaw = pitch = 0, fov = 60 and the basis update builds for them |
| XCamera.Camera.Update | xCamera.h:89-107 | update leaves position, yaw and fov unchanged, clamps pitch, rebuilds the basis for the new yaw and pitch, and leaves the camera valid |
| XCamera.Camera.Move | xCamera.h:109-112 | move sets position := position + direction·speed and changes no other field |
| XCamera.Camera.Rotate | xCamera.h:114-119 | rotate adds dyaw to yaw exactly, sets pitch to clamp(pitch + dpitch), and rebuilds the basis |
| XCamera.Camera.GetRay | xCamera.h:121-126 | the ray starts at the camera position; its direction is a unit vector parallel to front + v·up + u·right and pointing the same way, it points forward, and with zero offsets it is front |
| XCamera.PitchAfter | xCamera.h:114-119 | after any non-empty sequence of rotations the pitch is in [-89, 89] |
| XCamera.PitchAfterUnclamped | xCamera.h:114-119 | while no clamp is reached, the pitch is the start plus the sum of the deltas |

## Left out

- `main()` is not modelled (`main.c:172-249`). This covers the X11 window, event polling, the key handling, the frame loop and the framebuffer. It is I/O over a library that is not part of this model. Its own copy of the camera arithmetic is not modelled either. The per-pixel step is modelled as `XCamera.Camera.GetRay`, `Render.RayColor` and `Render.ColorToUint32`; the loop over pixels is not modelled.
- The OpenMP parallel loop (`main.c:226`) is not modelled. Each pixel's work is sequential and independent.
- The `u_offsets`/`v_offsets` precomputation (`main.c:189-192`) is not modelled. The offsets are `GetRay` parameters.
- `sInit`'s fixed scene (`main.c:162-170`) is not modelled. The scene is any sequence of `AddSphere`/`AddRect` calls.
- IEEE-754 semantics are not modelled: rounding, overflow, NaN and infinities. Arithmetic is exact over `real`.
  - `FLT_MAX` is its exact value as a real.
  - `0.001f` and `0.0001f` are the exact decimals.
  - `M_PI` is the decimal literal of `xCamera.h`.
- The exact values of `sqrtf`, `sinf` and `cosf` are not modelled. Only the facts listed in `LibM.Valid()` are used.
- Render.ComputeLighting: the point at the light's own position is excluded by `requires`, since C divides by a zero light distance there and produces NaN.
  - That position lies on the ceiling rect of `sInit`'s scene.
  - For the same reason, `Render.RayColor` takes the local lighting as a function parameter. `Render.Shading` passes `ComputeLighting` as that parameter and shades the light's own position black, where C produces NaN. `Render.RayColorShadedInBox` is stated for that lighting.
  - ComputeLighting's exact colour is not stated beyond the Phong split, the ambient floor and the 32nd power.
- Scene.Scene.AddSphere: a zero radius is excluded by `requires`. C divides by the radius for the hit normal and gives inf/NaN.
- Scene.Scene.AddRect: a zero normal, u or v is excluded by `requires`, because `norm` would divide by zero.
  - The code only normalises each vector. It does not make them mutually orthogonal, so the model assumes no orthogonality either.
- Render.RayColor: the `HitRecord` that `ray_color` declares without initialising is modelled by one fixed record, `Render.Uninitialised`. `Scene.TraceIgnoresStartFields` proves that the choice cannot change whether the ray hits, nor the returned record when it hits. On a miss the record keeps the start's point, normal and material, which `ray_color` never reads.
- Intersect.IntersectRect keeps the C order of the checks: the distance is compared with `rec->t` before the extents are checked. `RectCandidate` checks the extents without the record. Both orders accept the same hits, which is what the method's `ensures` states.
- The camera's `fov` is stored and initialised, but nothing in the core reads it.
- `add_sphere`/`add_rect` silently drop an addition at capacity. The model follows the code: a call at capacity is a no-op.
