/** Vector algebra of the ray tracer: the Vec3 and Ray value types and the
    inline vector operations, over exact reals instead of 32-bit floats. */
module XMath {

  /** A 3D vector (point, direction or colour). */
  datatype Vec3 = Vec3(x: real, y: real, z: real)

  /** A half-line: an origin and a direction (unit length wherever distances matter). */
  datatype Ray = Ray(origin: Vec3, direction: Vec3)

  const Zero := Vec3(0.0, 0.0, 0.0)

  /** The three C library functions the renderer calls, given as functions.
      Valid() lists the only facts about them that the proofs use; all of
      them hold of the mathematical square root, sine and cosine. */
  datatype LibM = LibM(sqrtf: real -> real, sinf: real -> real, cosf: real -> real)
  {
    ghost predicate Valid() {
      // instantiated only through SqrtFacts, to keep the square root's
      // nonlinear fact out of proofs that do not need it
      (forall a {:trigger Sqrtable(a)} :: Sqrtable(a) ==> sqrtf(a) >= 0.0 && sqrtf(a) * sqrtf(a) == a) &&
      (forall a :: sinf(a) * sinf(a) + cosf(a) * cosf(a) == 1.0) &&
      // cos is positive strictly inside (-pi/2, pi/2)
      (forall a :: -1.57 <= a <= 1.57 ==> cosf(a) > 0.0)
    }
  }

  /** The domain of the library square root. */
  predicate Sqrtable(a: real) {
    a >= 0.0
  }

  function Add(a: Vec3, b: Vec3): Vec3
  {
    Vec3(a.x + b.x, a.y + b.y, a.z + b.z)
  }

  function Sub(a: Vec3, b: Vec3): Vec3
  {
    Vec3(a.x - b.x, a.y - b.y, a.z - b.z)
  }

  function Mul(v: Vec3, t: real): Vec3
  {
    Vec3(v.x * t, v.y * t, v.z * t)
  }

  /** Component-wise division; a zero divisor (an inf/NaN in C) is excluded. */
  function VDiv(v: Vec3, t: real): (r: Vec3)
    requires t != 0.0
    ensures Mul(r, t) == v
  {
    Vec3(v.x / t, v.y / t, v.z / t)
  }

  function Dot(a: Vec3, b: Vec3): real
  {
    a.x * b.x + a.y * b.y + a.z * b.z
  }

  /** Euclidean length, through the library square root. */
  function Len(m: LibM, v: Vec3): (r: real)
    requires m.Valid()
    ensures r >= 0.0 && r * r == Dot(v, v)
    ensures r == 0.0 <==> v == Zero
  {
    DotSelf(v);
    SqrtFacts(m, Dot(v, v));
    m.sqrtf(Dot(v, v))
  }

  /** Unit vector in the direction of a non-zero v. */
  function Norm(m: LibM, v: Vec3): (r: Vec3)
    requires m.Valid() && v != Zero
    ensures Dot(r, r) == 1.0
    ensures Cross(r, v) == Zero && Dot(r, v) > 0.0
  {
    var l := Len(m, v);
    var r := VDiv(v, l);
    assert r == Mul(v, 1.0 / l);
    NormFacts(v, l);
    r
  }

  /** Mirror image of v about the plane with normal n. */
  function Reflect(v: Vec3, n: Vec3): Vec3
  {
    Sub(v, Mul(n, 2.0 * Dot(v, n)))
  }

  function Cross(a: Vec3, b: Vec3): (r: Vec3)
    ensures Dot(r, a) == 0.0 && Dot(r, b) == 0.0
  {
    Vec3(a.y * b.z - a.z * b.y,
         a.z * b.x - a.x * b.z,
         a.x * b.y - a.y * b.x)
  }

  // ---- helpers for the nonlinear steps ----

  lemma SqrtFacts(m: LibM, a: real)
    requires m.Valid() && a >= 0.0
    ensures m.sqrtf(a) >= 0.0 && m.sqrtf(a) * m.sqrtf(a) == a
    ensures m.sqrtf(a) == 0.0 <==> a == 0.0
  {
    var r := m.sqrtf(a);
    assert Sqrtable(a);
    assert r >= 0.0 && r * r == a;
    if r > 0.0 {
      calc { a; == r * r; > 0.0; }
    }
  }

  lemma DotSelf(v: Vec3)
    ensures Dot(v, v) >= 0.0
    ensures v != Zero ==> Dot(v, v) > 0.0
  {
    SquareNonNeg(v.x);
    SquareNonNeg(v.y);
    SquareNonNeg(v.z);
    if v != Zero {
      PositiveSum(v.x, v.y, v.z);
      calc {
        Dot(v, v);
        == v.x * v.x + v.y * v.y + v.z * v.z;
        > 0.0;
      }
    }
  }

  lemma PositiveSum(a: real, b: real, c: real)
    requires a != 0.0 || b != 0.0 || c != 0.0
    ensures a * a + b * b + c * c > 0.0
  {
    SquareNonNeg(a);
    SquareNonNeg(b);
    SquareNonNeg(c);
    if a != 0.0 {
      SquarePos(a);
    }
    if b != 0.0 {
      SquarePos(b);
    }
    if c != 0.0 {
      SquarePos(c);
    }
  }

  lemma SquareNonNeg(a: real)
    ensures a * a >= 0.0
  {
  }

  lemma SquarePos(a: real)
    requires a != 0.0
    ensures a * a > 0.0
  {
  }

  lemma NormFacts(v: Vec3, l: real)
    requires l > 0.0 && l * l == Dot(v, v)
    ensures Dot(Mul(v, 1.0 / l), Mul(v, 1.0 / l)) == 1.0
    ensures Cross(Mul(v, 1.0 / l), v) == Zero
    ensures Dot(Mul(v, 1.0 / l), v) > 0.0
  {
    var k := 1.0 / l;
    assert k * k * (l * l) == 1.0 by {
      assert k * l == 1.0;
      assert k * k * (l * l) == (k * l) * (k * l);
    }
    DotScaleLeft(v, k, v);
    assert Dot(Mul(v, k), v) == k * (l * l);
    assert k > 0.0;
  }

  // ---- algebraic identities ----

  /** Subtraction undoes addition. */
  lemma SubAddCancel(a: Vec3, b: Vec3)
    ensures Sub(Add(a, b), b) == a
  {
  }

  lemma DotSymmetric(a: Vec3, b: Vec3)
    ensures Dot(a, b) == Dot(b, a)
  {
  }

  lemma DotScaleLeft(v: Vec3, t: real, w: Vec3)
    ensures Dot(Mul(v, t), w) == t * Dot(v, w)
  {
  }

  lemma DotSubLeft(a: Vec3, b: Vec3, c: Vec3)
    ensures Dot(Sub(a, b), c) == Dot(a, c) - Dot(b, c)
  {
  }

  lemma DotAddLeft(a: Vec3, b: Vec3, c: Vec3)
    ensures Dot(Add(a, b), c) == Dot(a, c) + Dot(b, c)
  {
  }

  lemma CrossAntiSymmetric(a: Vec3, b: Vec3)
    ensures Cross(a, b) == Mul(Cross(b, a), -1.0)
    ensures Cross(a, a) == Zero
  {
  }

  /** |a x b|^2 == |a|^2 |b|^2 - (a . b)^2 */
  lemma CrossLagrange(a: Vec3, b: Vec3)
    ensures Dot(Cross(a, b), Cross(a, b)) == Dot(a, a) * Dot(b, b) - Dot(a, b) * Dot(a, b)
  {
  }

  /** Reflection about a unit normal flips the normal component. */
  lemma {:induction false} ReflectFlipsNormal(v: Vec3, n: Vec3)
    requires Dot(n, n) == 1.0
    ensures Dot(Reflect(v, n), n) == -Dot(v, n)
  {
    var d := Dot(v, n);
    DotSubLeft(v, Mul(n, 2.0 * d), n);
    DotScaleLeft(n, 2.0 * d, n);
  }

  /** Reflection about a unit normal is an involution. */
  lemma {:induction false} ReflectInvolution(v: Vec3, n: Vec3)
    requires Dot(n, n) == 1.0
    ensures Reflect(Reflect(v, n), n) == v
  {
    ReflectFlipsNormal(v, n);
  }

  /** Reflection about a unit normal preserves length. */
  lemma {:induction false} ReflectPreservesLength(v: Vec3, n: Vec3)
    requires Dot(n, n) == 1.0
    ensures Dot(Reflect(v, n), Reflect(v, n)) == Dot(v, v)
  {
    var d := Dot(v, n);
    var w := Mul(n, 2.0 * d);
    var r := Reflect(v, n);
    calc {
      Dot(r, r);
    == { DotSubLeft(v, w, r); }
      Dot(v, r) - Dot(w, r);
    == { DotScaleLeft(n, 2.0 * d, r); DotSymmetric(n, r); ReflectFlipsNormal(v, n); }
      Dot(v, r) - (2.0 * d) * -d;
    == { DotSymmetric(v, r); DotSubLeft(v, w, v); }
      Dot(v, v) - Dot(w, v) - (2.0 * d) * -d;
    == { DotScaleLeft(n, 2.0 * d, v); DotSymmetric(n, v); }
      Dot(v, v) - (2.0 * d) * d - (2.0 * d) * -d;
    ==
      Dot(v, v);
    }
  }
}
