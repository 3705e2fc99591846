/**
 Two-bone inverse kinematics of an avatar's arm over the reals: the closed solution from shoulder and
 target to elbow and wrist, with the host's square root and trigonometry known by their laws only.
 */
module ArmIk {
  import opened Basics

  datatype V3 = V3(x: real, y: real, z: real)

  function Sub(a: V3, b: V3): V3 { V3(a.x - b.x, a.y - b.y, a.z - b.z) }
  function Add(a: V3, b: V3): V3 { V3(a.x + b.x, a.y + b.y, a.z + b.z) }
  function Scale(a: V3, k: real): V3 { V3(a.x * k, a.y * k, a.z * k) }
  function Dot(a: V3, b: V3): real { a.x * b.x + a.y * b.y + a.z * b.z }

  /** The host's mathematical functions, known only by the laws below. */
  datatype Maths = Maths(sqrt: real -> real, cos: real -> real, sin: real -> real, acos: real -> real, pi: real)

  ghost predicate Lawful(m: Maths) {
    && (forall x: real :: x >= 0.0 ==> m.sqrt(x) >= 0.0 && m.sqrt(x) * m.sqrt(x) == x)
    && (forall c: real :: -1.0 <= c <= 1.0 ==>
          && m.cos(m.acos(c)) == c
          && m.sin(m.acos(c)) >= 0.0
          && m.sin(m.acos(c)) * m.sin(m.acos(c)) + c * c == 1.0)
  }

  function Min(a: real, b: real): real { if a <= b then a else b }
  function Abs(a: real): real { if a < 0.0 then -a else a }
  function Clamp(v: real, lo: real, hi: real): real { Min(hi, Max(lo, v)) }

  function Length(m: Maths, a: V3): real { m.sqrt(Dot(a, a)) }

  const DOWN := V3(0.0, -1.0, 0.0)

  function Normalize(m: Maths, a: V3): V3 {
    var l := Length(m, a);
    if l > 0.000000001 then Scale(a, 1.0 / l) else DOWN
  }

  // ---- The solver ----

  datatype TwoBoneIk = TwoBoneIk(elbow: V3, end: V3, bendRad: real, reachFrac: real)

  function Longest(lenA: real, lenB: real): real {
    (lenA + lenB) * 0.9995
  }

  function Reach(dist: real, lenA: real, lenB: real): real {
    Clamp(dist, Abs(lenA - lenB) + 0.0001, Longest(lenA, lenB))
  }

  /** The part of the pole at right angles to the axis. */
  function Projected(pole: V3, u: V3): V3 {
    Sub(pole, Scale(u, Dot(pole, u)))
  }

  function AnyNormal(u: V3): V3 {
    if Abs(u.y) < 0.9 then V3(-u.y, u.x, 0.0) else V3(0.0, -u.z, u.y)
  }

  /** The direction in which the elbow leaves the axis. */
  function Side(m: Maths, pole: V3, u: V3): V3 {
    var w := Projected(pole, u);
    Normalize(m, if Length(m, w) < 0.000001 then AnyNormal(u) else w)
  }

  /** The cosine of the angle at the shoulder. */
  function ShoulderCosine(a: real, b: real, r: real): real
    requires 2.0 * a * r > 0.0
  {
    Clamp((a * a + r * r - b * b) / (2.0 * a * r), -1.0, 1.0)
  }

  /** The cosine of the angle at the elbow. */
  function ElbowCosine(a: real, b: real, r: real): real
    requires 2.0 * a * b > 0.0
  {
    Clamp((a * a + b * b - r * r) / (2.0 * a * b), -1.0, 1.0)
  }

  /** The elbow at the angle of the given cosine from the axis. */
  function ElbowAt(m: Maths, root: V3, u: V3, w: V3, lenA: real, cosA: real): V3 {
    var a := m.acos(cosA);
    Add(root, Add(Scale(u, lenA * m.cos(a)), Scale(w, lenA * m.sin(a))))
  }

  lemma ProductIsPositive(a: real, b: real)
    requires a > 0.0 && b > 0.0
    ensures a * b > 0.0 && 2.0 * a * b > 0.0
  {
  }

  lemma ReachIsPositive(dist: real, lenA: real, lenB: real)
    requires lenA > 0.0 && lenB > 0.0
    ensures 0.0 < Reach(dist, lenA, lenB) <= Longest(lenA, lenB) < lenA + lenB
    ensures 2.0 * lenA * Reach(dist, lenA, lenB) > 0.0
  {
    ProductIsPositive(lenA, Reach(dist, lenA, lenB));
  }

  function SolveTwoBoneIk(m: Maths, root: V3, target: V3, lenA: real, lenB: real, pole: V3): TwoBoneIk
    requires lenA > 0.0 && lenB > 0.0
  {
    var d := Sub(target, root);
    var reach := Reach(Length(m, d), lenA, lenB);
    var u := Normalize(m, d);
    var end := Add(root, Scale(u, reach));
    var w := Side(m, pole, u);
    ReachIsPositive(Length(m, d), lenA, lenB);
    var elbow := ElbowAt(m, root, u, w, lenA, ShoulderCosine(lenA, lenB, reach));
    ProductIsPositive(lenA, lenB);
    TwoBoneIk(elbow, end, m.pi - m.acos(ElbowCosine(lenA, lenB, reach)), reach / (lenA + lenB))
  }

  // ---- Vector algebra ----

  lemma DotSum(a: V3, b: V3, c: V3)
    ensures Dot(Add(a, b), c) == Dot(a, c) + Dot(b, c)
    ensures Dot(c, Add(a, b)) == Dot(c, a) + Dot(c, b)
  {
  }

  lemma DotScaled(a: V3, k: real, c: V3)
    ensures Dot(Scale(a, k), c) == k * Dot(a, c)
    ensures Dot(c, Scale(a, k)) == k * Dot(c, a)
  {
  }

  lemma DotSame(a: V3)
    ensures Dot(a, a) >= 0.0
  {
  }

  /** The squared lengths of p steps along one unit vector and q along another, e being their dot product. */
  function UpperSquare(p: real, q: real, e: real): real {
    p * p + q * q + 2.0 * (p * q * e)
  }

  /** The same for the way back to the point r along the first. */
  function LowerSquare(r: real, p: real, q: real, e: real): real {
    UpperSquare(r - p, -q, e)
  }

  /** The square of a combination of two unit vectors. */
  lemma Combination(u: V3, w: V3, p: real, q: real)
    requires Dot(u, u) == 1.0 && Dot(w, w) == 1.0
    ensures Dot(Add(Scale(u, p), Scale(w, q)), Add(Scale(u, p), Scale(w, q)))
            == UpperSquare(p, q, Dot(u, w))
  {
    var pu, qw := Scale(u, p), Scale(w, q);
    DotSum(pu, qw, Add(pu, qw));
    DotSum(pu, qw, pu);
    DotSum(pu, qw, qw);
    DotScaled(u, p, u);
    DotScaled(u, p, pu);
    DotScaled(w, q, w);
    DotScaled(w, q, qw);
    DotScaled(w, q, pu);
    DotScaled(u, p, qw);
    DotScaled(u, p, w);
    DotScaled(w, q, u);
    assert Dot(w, u) == Dot(u, w);
  }

  lemma Sign(x: real, y: real)
    requires y > 0.0
    ensures x * y > 0.0 <==> x > 0.0
    ensures x * y == 0.0 <==> x == 0.0
    ensures x * y < 0.0 <==> x < 0.0
  {
  }

  lemma SquareOrder(s: real, r: real)
    requires s >= 0.0 && r >= 0.0
    ensures s * s == r * r <==> s == r
    ensures s * s > r * r <==> s > r
  {
    assert s * s - r * r == (s - r) * (s + r);
    if s + r > 0.0 {
      Sign(s - r, s + r);
    }
  }

  lemma SqrtIs(m: Maths, x: real, r: real)
    requires Lawful(m) && r >= 0.0 && x >= 0.0
    ensures m.sqrt(x) == r <==> x == r * r
  {
    SquareOrder(m.sqrt(x), r);
  }

  lemma LengthIs(m: Maths, v: V3, r: real)
    requires Lawful(m) && r >= 0.0
    ensures Length(m, v) == r <==> Dot(v, v) == r * r
    ensures Length(m, v) >= 0.0 && Length(m, v) * Length(m, v) == Dot(v, v)
  {
    DotSame(v);
    SqrtIs(m, Dot(v, v), r);
  }

  lemma ScaledToUnit(m: Maths, v: V3)
    requires Lawful(m) && Length(m, v) > 0.0
    ensures Dot(Scale(v, 1.0 / Length(m, v)), Scale(v, 1.0 / Length(m, v))) == 1.0
  {
    var l := Length(m, v);
    var k := 1.0 / l;
    LengthIs(m, v, l);
    DotScaled(v, k, Scale(v, k));
    DotScaled(v, k, v);
    assert k * l == 1.0;
    assert k * (k * (l * l)) == (k * l) * (k * l);
  }

  lemma NormalizeIsUnit(m: Maths, v: V3)
    requires Lawful(m)
    ensures Dot(Normalize(m, v), Normalize(m, v)) == 1.0
  {
    if Length(m, v) > 0.000000001 {
      ScaledToUnit(m, v);
    }
  }

  lemma LengthExceeds(m: Maths, v: V3, r: real)
    requires Lawful(m) && r >= 0.0
    ensures Length(m, v) > r <==> Dot(v, v) > r * r
  {
    LengthIs(m, v, r);
    SquareOrder(Length(m, v), r);
  }

  // ---- The side of the elbow ----

  /** The pole is off the axis, or the axis leaves a direction to fall back to: false only for an axis
      almost along z, yet not exactly, with a pole on it. */
  predicate PoleSettles(m: Maths, pole: V3, u: V3) {
    || Length(m, Projected(pole, u)) >= 0.000001
    || Abs(u.y) >= 0.9
    || u.x * u.x + u.y * u.y > 0.000000000000000001
    || u.y == 0.0
  }

  lemma ProjectedIsNormal(pole: V3, u: V3)
    requires Dot(u, u) == 1.0
    ensures Dot(u, Projected(pole, u)) == 0.0
  {
    var t := Dot(pole, u);
    var along := Scale(u, t);
    assert Dot(u, Sub(pole, along)) == Dot(u, pole) - Dot(u, along);
    DotScaled(u, t, u);
    assert Dot(u, pole) == t;
  }

  lemma NormalizedIsNormal(m: Maths, u: V3, v: V3)
    requires Dot(u, v) == 0.0
    ensures Length(m, v) > 0.000000001 ==> Dot(u, Normalize(m, v)) == 0.0
    ensures Length(m, v) <= 0.000000001 ==> Dot(u, Normalize(m, v)) == -u.y
  {
    if Length(m, v) > 0.000000001 {
      DotScaled(v, 1.0 / Length(m, v), u);
    }
  }

  lemma SquareOfAbs(a: real)
    ensures Abs(a) >= 0.9 ==> a * a >= 0.81
  {
    if a >= 0.9 {
      assert a * a >= 0.9 * a;
    } else if a <= -0.9 {
      assert a * a >= -0.9 * a;
    }
  }

  lemma AnyNormalIsNormal(m: Maths, u: V3)
    requires Lawful(m)
    ensures Dot(u, AnyNormal(u)) == 0.0
    ensures Length(m, AnyNormal(u)) > 0.000000001 <==>
              (Abs(u.y) >= 0.9 || u.x * u.x + u.y * u.y > 0.000000000000000001)
  {
    var v := AnyNormal(u);
    LengthExceeds(m, v, 0.000000001);
    if Abs(u.y) < 0.9 {
      assert Dot(v, v) == u.x * u.x + u.y * u.y;
    } else {
      SquareOfAbs(u.y);
      assert Dot(v, v) == u.z * u.z + u.y * u.y;
      assert u.z * u.z >= 0.0;
    }
  }

  /** The elbow leaves the axis at a right angle exactly when the pole settles the side. */
  lemma SideIsNormal(m: Maths, pole: V3, u: V3)
    requires Lawful(m) && Dot(u, u) == 1.0
    ensures Dot(Side(m, pole, u), Side(m, pole, u)) == 1.0
    ensures Dot(u, Side(m, pole, u)) == 0.0 <==> PoleSettles(m, pole, u)
  {
    var w := Projected(pole, u);
    ProjectedIsNormal(pole, u);
    AnyNormalIsNormal(m, u);
    NormalizeIsUnit(m, w);
    NormalizeIsUnit(m, AnyNormal(u));
    NormalizedIsNormal(m, u, w);
    NormalizedIsNormal(m, u, AnyNormal(u));
  }

  // ---- The cosine rule ----

  /** What a clamped quotient is, without division. */
  lemma ClampedQuotient(n: real, d: real)
    requires d > 0.0
    ensures var c := Clamp(n / d, -1.0, 1.0);
            && -1.0 <= c <= 1.0
            && (-d <= n <= d ==> c * d == n)
            && (n >= d ==> c == 1.0)
            && (n <= -d ==> c == -1.0)
            && (-d < n < d ==> -1.0 < c < 1.0)
  {
    var q := n / d;
    assert q * d == n;
    if q > 1.0 {
      assert q * d > d;
    } else if q < -1.0 {
      assert q * d < -d;
    } else {
      assert -d <= q * d <= d;
      if n == d {
        assert (q - 1.0) * d == 0.0;
      } else if n == -d {
        assert (q + 1.0) * d == 0.0;
      }
    }
  }

  /** Three lengths make a triangle exactly when the cosine rule yields a cosine. */
  lemma TriangleIffCosine(a: real, b: real, r: real)
    requires a > 0.0 && b > 0.0 && 0.0 < r < a + b
    ensures var n, d := a * a + r * r - b * b, 2.0 * a * r;
            && (n > d <==> r < a - b) && (n == d <==> r == a - b)
            && (n < -d <==> r < b - a) && (n == -d <==> r == b - a)
  {
    var n, d := a * a + r * r - b * b, 2.0 * a * r;
    assert n - d == (a - r - b) * (a - r + b);
    assert n + d == (a + r - b) * (a + r + b);
    Sign(a - r - b, a - r + b);
    Sign(a + r - b, a + r + b);
  }

  // ---- Bone lengths ----

  lemma ShoulderCosineMeans(a: real, b: real, r: real)
    requires a > 0.0 && b > 0.0 && 0.0 < r < a + b
    ensures 2.0 * a * r > 0.0
    ensures var c := ShoulderCosine(a, b, r);
            && -1.0 <= c <= 1.0
            && (r >= Abs(a - b) ==> c * (2.0 * a * r) == a * a + r * r - b * b)
            && (r <= a - b ==> c == 1.0)
            && (r <= b - a ==> c == -1.0)
            && (r > Abs(a - b) ==> -1.0 < c < 1.0)
  {
    ProductIsPositive(a, r);
    TriangleIffCosine(a, b, r);
    ClampedQuotient(a * a + r * r - b * b, 2.0 * a * r);
  }

  lemma Bones(root: V3, u: V3, w: V3, r: real, p: real, q: real)
    ensures var elbow := Add(root, Add(Scale(u, p), Scale(w, q)));
            && Sub(elbow, root) == Add(Scale(u, p), Scale(w, q))
            && Sub(Add(root, Scale(u, r)), elbow) == Add(Scale(u, r - p), Scale(w, -q))
  {
  }

  lemma SquaresOfBones(root: V3, u: V3, w: V3, r: real, p: real, q: real)
    requires Dot(u, u) == 1.0 && Dot(w, w) == 1.0
    ensures var elbow := Add(root, Add(Scale(u, p), Scale(w, q)));
            var end := Add(root, Scale(u, r));
            && Dot(Sub(elbow, root), Sub(elbow, root)) == UpperSquare(p, q, Dot(u, w))
            && Dot(Sub(end, elbow), Sub(end, elbow)) == LowerSquare(r, p, q, Dot(u, w))
  {
    Bones(root, u, w, r, p, q);
    Combination(u, w, p, q);
    Combination(u, w, r - p, -q);
  }

  /** What the bones would measure at a right angle, and what an angle adds. */
  lemma SquaresOfTriangle(a: real, b: real, r: real, c: real, s: real, e: real)
    requires s * s + c * c == 1.0
    requires c * (2.0 * a * r) == a * a + r * r - b * b
    ensures UpperSquare(a * c, a * s, e) == a * a + 2.0 * ((a * c) * (a * s) * e)
    ensures LowerSquare(r, a * c, a * s, e) == b * b + 2.0 * ((r - a * c) * -(a * s) * e)
  {
    assert (a * c) * (a * c) + (a * s) * (a * s) == (a * a) * (s * s + c * c);
    assert (r - a * c) * (r - a * c) == r * r - c * (2.0 * a * r) + (a * c) * (a * c);
    assert -(a * s) * -(a * s) == (a * s) * (a * s);
  }

  lemma ZeroFactor(x: real, y: real)
    ensures x * y == 0.0 <==> x == 0.0 || y == 0.0
  {
  }

  /** Off the right angle, a bent arm cannot keep both lengths. */
  lemma SkewSquares(a: real, r: real, c: real, s: real, e: real)
    requires a > 0.0 && r > 0.0
    ensures (a * c) * (a * s) * e == 0.0 && (r - a * c) * -(a * s) * e == 0.0 <==> s == 0.0 || e == 0.0
  {
    ZeroFactor((a * c) * (a * s), e);
    ZeroFactor(a * c, a * s);
    ZeroFactor(a, c);
    ZeroFactor(a, s);
    ZeroFactor((r - a * c) * -(a * s), e);
    ZeroFactor(r - a * c, -(a * s));
  }

  lemma SineIsZero(c: real, s: real)
    requires s * s + c * c == 1.0
    ensures s == 0.0 <==> c == 1.0 || c == -1.0
  {
    ZeroFactor(s, s);
    ZeroFactor(c - 1.0, c + 1.0);
    assert (c - 1.0) * (c + 1.0) == c * c - 1.0;
  }

  lemma LongEnoughSquares(a: real, b: real, r: real, c: real, s: real, e: real)
    requires a > 0.0 && r > 0.0 && s * s + c * c == 1.0
    requires c * (2.0 * a * r) == a * a + r * r - b * b
    ensures (UpperSquare(a * c, a * s, e) == a * a && LowerSquare(r, a * c, a * s, e) == b * b)
            <==> s == 0.0 || e == 0.0
  {
    SquaresOfTriangle(a, b, r, c, s, e);
    SkewSquares(a, r, c, s, e);
  }

  lemma StraightIffShortest(a: real, b: real, r: real, c: real)
    requires a > 0.0 && b > 0.0 && Abs(a - b) <= r < a + b && r > 0.0 && 2.0 * a * r > 0.0
    requires c == ShoulderCosine(a, b, r)
    ensures c == 1.0 || c == -1.0 <==> r == Abs(a - b)
  {
    ShoulderCosineMeans(a, b, r);
  }

  /** The two squared lengths are right exactly when the reach admits a triangle and the elbow leaves
      the axis at a right angle, if it leaves it at all. */
  lemma SquaresExactly(a: real, b: real, r: real, c: real, s: real, e: real)
    requires a > 0.0 && b > 0.0 && 0.0 < r < a + b && 2.0 * a * r > 0.0
    requires c == ShoulderCosine(a, b, r) && s * s + c * c == 1.0
    ensures (UpperSquare(a * c, a * s, e) == a * a && LowerSquare(r, a * c, a * s, e) == b * b)
            <==> r == Abs(a - b) || (r > Abs(a - b) && e == 0.0)
  {
    ShoulderCosineMeans(a, b, r);
    SineIsZero(c, s);
    if r >= Abs(a - b) {
      LongEnoughSquares(a, b, r, c, s, e);
      StraightIffShortest(a, b, r, c);
    } else {
      TooShortSquare(a, b, r, c, s, e);
    }
  }

  lemma TooShortSquare(a: real, b: real, r: real, c: real, s: real, e: real)
    requires a > 0.0 && b > 0.0 && 0.0 < r < Abs(a - b) && s == 0.0
    requires c == if a > b then 1.0 else -1.0
    ensures LowerSquare(r, a * c, a * s, e) != b * b
  {
    assert a * s == 0.0;
    assert LowerSquare(r, a * c, 0.0, e) == (r - a * c) * (r - a * c) + -0.0 * -0.0;
    if a > b {
      SquareOrder(a - r, b);
      assert (r - a) * (r - a) == (a - r) * (a - r);
    } else {
      SquareOrder(r + a, b);
    }
  }

  /** The reach the solver settles on. */
  function ReachOf(m: Maths, root: V3, target: V3, lenA: real, lenB: real): real {
    Reach(Length(m, Sub(target, root)), lenA, lenB)
  }

  lemma ElbowAtCosine(m: Maths, root: V3, u: V3, w: V3, lenA: real, c: real, s: real)
    requires Lawful(m) && -1.0 <= c <= 1.0 && s == m.sin(m.acos(c))
    ensures ElbowAt(m, root, u, w, lenA, c) == Add(root, Add(Scale(u, lenA * c), Scale(w, lenA * s)))
  {
    var a := m.acos(c);
    var p, q := lenA * m.cos(a), lenA * m.sin(a);
    assert m.cos(a) == c;
    assert p == lenA * c && q == lenA * s;
  }

  lemma SolvedPoints(m: Maths, root: V3, target: V3, lenA: real, lenB: real, pole: V3, u: V3, w: V3, r: real)
    requires lenA > 0.0 && lenB > 0.0 && 2.0 * lenA * r > 0.0
    requires u == Normalize(m, Sub(target, root)) && w == Side(m, pole, u)
    requires r == ReachOf(m, root, target, lenA, lenB)
    ensures var ik := SolveTwoBoneIk(m, root, target, lenA, lenB, pole);
            && ik.elbow == ElbowAt(m, root, u, w, lenA, ShoulderCosine(lenA, lenB, r))
            && ik.end == Add(root, Scale(u, r))
  {
  }

  /** A solution in terms of its axis u, its side w, its reach r and the sine and cosine at the shoulder. */
  lemma Solution(m: Maths, root: V3, target: V3, lenA: real, lenB: real, pole: V3)
    returns (u: V3, w: V3, r: real, c: real, s: real)
    requires Lawful(m) && lenA > 0.0 && lenB > 0.0
    ensures u == Normalize(m, Sub(target, root)) && w == Side(m, pole, u)
    ensures r == ReachOf(m, root, target, lenA, lenB) && 0.0 < r < lenA + lenB
    ensures 2.0 * lenA * r > 0.0 && c == ShoulderCosine(lenA, lenB, r)
    ensures s >= 0.0 && s * s + c * c == 1.0
    ensures Dot(u, u) == 1.0 && Dot(w, w) == 1.0 && (Dot(u, w) == 0.0 <==> PoleSettles(m, pole, u))
    ensures var ik := SolveTwoBoneIk(m, root, target, lenA, lenB, pole);
            ik.elbow == Add(root, Add(Scale(u, lenA * c), Scale(w, lenA * s))) && ik.end == Add(root, Scale(u, r))
  {
    var d := Sub(target, root);
    r := ReachOf(m, root, target, lenA, lenB);
    u := Normalize(m, d);
    w := Side(m, pole, u);
    NormalizeIsUnit(m, d);
    SideIsNormal(m, pole, u);
    ReachIsPositive(Length(m, d), lenA, lenB);
    c, s := ShoulderSine(m, lenA, lenB, r);
    SolvedPoints(m, root, target, lenA, lenB, pole, u, w, r);
    ElbowAtCosine(m, root, u, w, lenA, c, s);
  }

  lemma ShoulderSine(m: Maths, a: real, b: real, r: real) returns (c: real, s: real)
    requires Lawful(m) && a > 0.0 && b > 0.0 && 0.0 < r < a + b && 2.0 * a * r > 0.0
    ensures c == ShoulderCosine(a, b, r) && -1.0 <= c <= 1.0
    ensures s == m.sin(m.acos(c)) && s >= 0.0 && s * s + c * c == 1.0
  {
    ShoulderCosineMeans(a, b, r);
    c := ShoulderCosine(a, b, r);
    s := m.sin(m.acos(c));
  }

  lemma ReachIsShortOnly(dist: real, lenA: real, lenB: real)
    requires lenA > 0.0 && lenB > 0.0
    ensures var r, least := Reach(dist, lenA, lenB), Abs(lenA - lenB);
            && (r == least <==> Longest(lenA, lenB) == least)
            && (r > least <==> Longest(lenA, lenB) > least)
  {
  }

  /** Full stretch is no shorter than the difference of the bones, and the pole settles the side; where
      the two lengths are equal the arm is straight and needs no side. */
  predicate SolutionFits(m: Maths, root: V3, target: V3, lenA: real, lenB: real, pole: V3) {
    var full, least := 0.9995 * (lenA + lenB), Abs(lenA - lenB);
    full == least || (full > least && PoleSettles(m, pole, Normalize(m, Sub(target, root))))
  }

  /** Both bones keep their lengths exactly when the solution fits. */
  lemma BonesKeepTheirLengths(m: Maths, root: V3, target: V3, lenA: real, lenB: real, pole: V3)
    requires Lawful(m) && lenA > 0.0 && lenB > 0.0
    ensures var ik := SolveTwoBoneIk(m, root, target, lenA, lenB, pole);
            (Length(m, Sub(ik.elbow, root)) == lenA && Length(m, Sub(ik.end, ik.elbow)) == lenB)
            <==> SolutionFits(m, root, target, lenA, lenB, pole)
  {
    var u, w, r, c, s := Solution(m, root, target, lenA, lenB, pole);
    SquaresOfBones(root, u, w, r, lenA * c, lenA * s);
    SquaresExactly(lenA, lenB, r, c, s, Dot(u, w));
    ReachIsShortOnly(Length(m, Sub(target, root)), lenA, lenB);
    var ik := SolveTwoBoneIk(m, root, target, lenA, lenB, pole);
    LengthIs(m, Sub(ik.elbow, root), lenA);
    LengthIs(m, Sub(ik.end, ik.elbow), lenB);
  }

  lemma SmallSquare(y: real, e: real)
    requires 0.0 < y <= e
    ensures y * y <= e * e
  {
  }

  lemma ScaledByOne(u: V3)
    ensures Scale(u, 1.0) == u && Sub(u, u) == V3(0.0, 0.0, 0.0)
  {
  }

  /** A pole on the axis has no part at right angles to it. */
  lemma UnitAxis(m: Maths, u: V3)
    requires Lawful(m) && Dot(u, u) == 1.0
    ensures Normalize(m, u) == u && Length(m, Projected(u, u)) == 0.0
  {
    ScaledByOne(u);
    LengthIs(m, u, 1.0);
    LengthIs(m, V3(0.0, 0.0, 0.0), 0.0);
  }

  lemma PoleSettlesNothing(m: Maths, u: V3)
    requires Length(m, Projected(u, u)) == 0.0 && u.x == 0.0 && 0.0 < u.y <= 0.000000001
    ensures !PoleSettles(m, u, u)
  {
    SmallSquare(u.y, 0.000000001);
    assert u.x * u.x == 0.0;
  }

  /** A target straight on a nearly forward axis, with the pole on it: the elbow finds no side. */
  lemma PoleOnTheAxis(m: Maths, y: real, z: real)
    requires Lawful(m) && y * y + z * z == 1.0 && 0.0 < y <= 0.000000001
    ensures var u := V3(0.0, y, z);
            Normalize(m, u) == u && !PoleSettles(m, u, u)
  {
    UnitAxis(m, V3(0.0, y, z));
    PoleSettlesNothing(m, V3(0.0, y, z));
  }

  /** For instance, arms of two equal bones are not kept for such a target. */
  lemma PoleOnTheAxisFails(m: Maths, y: real, z: real)
    requires Lawful(m) && y * y + z * z == 1.0 && 0.0 < y <= 0.000000001
    ensures var root, target := V3(0.0, 0.0, 0.0), V3(0.0, y, z);
            var ik := SolveTwoBoneIk(m, root, target, 1.0, 1.0, target);
            Length(m, Sub(ik.elbow, root)) != 1.0 || Length(m, Sub(ik.end, ik.elbow)) != 1.0
  {
    var root, target := V3(0.0, 0.0, 0.0), V3(0.0, y, z);
    PoleOnTheAxis(m, y, z);
    assert Sub(target, root) == target;
    BonesKeepTheirLengths(m, root, target, 1.0, 1.0, target);
  }

  lemma SquareOfProduct(p: real, d: real, a: real)
    requires p * d == a
    ensures a * a == (p * p) * (d * d)
  {
    assert (p * d) * (p * d) == (p * p) * (d * d);
  }

  lemma CancelOne(x: real, k: real)
    requires k > 0.0 && x * k == k
    ensures x == 1.0
  {
    assert (x - 1.0) * k == 0.0;
  }

  lemma UnitSquares(p: real, q: real, a: real, b: real, d: real)
    requires d >= 1.0 && p * d == a && q * d == b && a * a + b * b == d * d
    ensures p * p + q * q == 1.0
  {
    SquareOfProduct(p, d, a);
    SquareOfProduct(q, d, b);
    var s, t, k := p * p, q * q, d * d;
    assert s * k == a * a && t * k == b * b && k >= 1.0;
    assert (s + t) * k == s * k + t * k;
    CancelOne(s + t, k);
  }

  lemma Quotients(a: real, b: real, d: real)
    requires d >= 1.0 && a > 0.0 && a * a + b * b == d * d
    ensures (a / d) * (a / d) + (b / d) * (b / d) == 1.0 && 0.0 < a / d <= a
  {
    UnitSquares(a / d, b / d, a, b, d);
  }

  lemma NearlyForward(t: real)
    requires 0.0 < t <= 0.0000000004
    ensures var d := 1.0 + t * t;
            var y, z := 2.0 * t / d, (1.0 - t * t) / d;
            y * y + z * z == 1.0 && 0.0 < y <= 0.000000001
  {
    var d, s := 1.0 + t * t, t * t;
    var a, b := 2.0 * t, 1.0 - s;
    assert s >= 0.0 && d >= 1.0;
    assert a * a + b * b == d * d by {
      assert a * a == 4.0 * s;
      assert b * b == 1.0 - 2.0 * s + s * s;
      assert d * d == 1.0 + 2.0 * s + s * s;
    }
    Quotients(a, b, d);
  }

  /** Such targets exist. */
  lemma NearlyForwardArmFails(m: Maths, t: real)
    requires Lawful(m) && 0.0 < t <= 0.0000000004
    ensures var d := 1.0 + t * t;
            var root, target := V3(0.0, 0.0, 0.0), V3(0.0, 2.0 * t / d, (1.0 - t * t) / d);
            var ik := SolveTwoBoneIk(m, root, target, 1.0, 1.0, target);
            Length(m, Sub(ik.elbow, root)) != 1.0 || Length(m, Sub(ik.end, ik.elbow)) != 1.0
  {
    var d := 1.0 + t * t;
    NearlyForward(t);
    PoleOnTheAxisFails(m, 2.0 * t / d, (1.0 - t * t) / d);
  }

  /** For instance, an upper bone of 4000 and a lower one of 1 are never kept, whatever the target. */
  lemma LopsidedArmFails(m: Maths, root: V3, target: V3, pole: V3)
    requires Lawful(m)
    ensures var ik := SolveTwoBoneIk(m, root, target, 4000.0, 1.0, pole);
            Length(m, Sub(ik.elbow, root)) != 4000.0 || Length(m, Sub(ik.end, ik.elbow)) != 1.0
  {
    BonesKeepTheirLengths(m, root, target, 4000.0, 1.0, pole);
  }

  lemma LengthOfScaled(m: Maths, u: V3, r: real)
    requires Lawful(m) && Dot(u, u) == 1.0 && r >= 0.0
    ensures Length(m, Scale(u, r)) == r
  {
    DotScaled(u, r, u);
    DotScaled(u, r, Scale(u, r));
    LengthIs(m, Scale(u, r), r);
  }

  lemma Away(root: V3, v: V3)
    ensures Sub(Add(root, v), root) == v
    ensures Add(root, Sub(v, root)) == v
  {
  }

  lemma HandIsAway(m: Maths, root: V3, target: V3, lenA: real, lenB: real, pole: V3)
    requires Lawful(m) && lenA > 0.0 && lenB > 0.0
    ensures var ik := SolveTwoBoneIk(m, root, target, lenA, lenB, pole);
            Length(m, Sub(ik.end, root)) == ReachOf(m, root, target, lenA, lenB)
  {
    var u, w, r, c, s := Solution(m, root, target, lenA, lenB, pole);
    Away(root, Scale(u, r));
    LengthOfScaled(m, u, r);
  }

  /** The distance, no less than 0.1 mm more than the difference of the bones, and before all no more than
      0.9995 of their sum. */
  function Clamped(dist: real, lenA: real, lenB: real): real {
    var least, most := Abs(lenA - lenB) + 0.0001, 0.9995 * (lenA + lenB);
    if dist >= most || least >= most then most else if dist < least then least else dist
  }

  lemma ReachIsClamped(dist: real, lenA: real, lenB: real)
    ensures Reach(dist, lenA, lenB) == Clamped(dist, lenA, lenB)
  {
  }

  /** The hand is the clamped distance away from the shoulder. */
  lemma HandIsAtReach(m: Maths, root: V3, target: V3, lenA: real, lenB: real, pole: V3)
    requires Lawful(m) && lenA > 0.0 && lenB > 0.0
    ensures var ik := SolveTwoBoneIk(m, root, target, lenA, lenB, pole);
            Length(m, Sub(ik.end, root)) == Clamped(Length(m, Sub(target, root)), lenA, lenB)
  {
    HandIsAway(m, root, target, lenA, lenB, pole);
    ReachIsClamped(Length(m, Sub(target, root)), lenA, lenB);
  }

  /** The share that is reported is that distance as a part of both bones. */
  lemma ShareIsReported(m: Maths, root: V3, target: V3, lenA: real, lenB: real, pole: V3)
    requires lenA > 0.0 && lenB > 0.0
    ensures SolveTwoBoneIk(m, root, target, lenA, lenB, pole).reachFrac
            == Clamped(Length(m, Sub(target, root)), lenA, lenB) / (lenA + lenB)
  {
    ReachIsClamped(Length(m, Sub(target, root)), lenA, lenB);
  }

  lemma StretchedAxis(d: V3, dist: real)
    requires dist > 0.0
    ensures Scale(Scale(d, 1.0 / dist), dist) == d
  {
    assert (1.0 / dist) * dist == 1.0;
  }

  /** The hand is on the target exactly when the target is neither too close nor too far; a target at
      the shoulder itself leaves the arm hanging. */
  lemma HandReachesTarget(m: Maths, root: V3, target: V3, lenA: real, lenB: real, pole: V3)
    requires Lawful(m) && lenA > 0.0 && lenB > 0.0
    ensures var dist, most := Length(m, Sub(target, root)), 0.9995 * (lenA + lenB);
            var end := SolveTwoBoneIk(m, root, target, lenA, lenB, pole).end;
            && (dist > 0.000000001 ==>
                  (end == target <==> dist <= most && (Abs(lenA - lenB) + 0.0001 <= dist || dist == most)))
            && (dist <= 0.000000001 ==> end == Add(root, Scale(V3(0.0, -1.0, 0.0), Clamped(dist, lenA, lenB))))
  {
    var u, w, r, c, s := Solution(m, root, target, lenA, lenB, pole);
    var d := Sub(target, root);
    if r == Length(m, d) {
      StretchedAxis(d, r);
      Away(root, target);
    } else {
      HandIsAway(m, root, target, lenA, lenB, pole);
    }
    ReachIsClamped(Length(m, d), lenA, lenB);
  }

  lemma Quotient(q: real, l: real)
    requires l > 0.0 && q >= 0.0
    ensures (1.0 / l) * q == q / l >= 0.0
  {
  }

  lemma PoleDot(u: V3, side: V3, l: real, p: real, q: real)
    requires Dot(u, side) == 0.0 && l > 0.0 && Dot(side, side) == l * l
    ensures Dot(Add(Scale(u, p), Scale(Scale(side, 1.0 / l), q)), side) == q * l
  {
    var w := Scale(side, 1.0 / l);
    DotSum(Scale(u, p), Scale(w, q), side);
    DotScaled(u, p, side);
    DotScaled(w, q, side);
    DotScaled(side, 1.0 / l, side);
    assert (1.0 / l) * (l * l) == l;
  }

  lemma PoleSide(u: V3, side: V3, l: real, p: real, q: real)
    requires Dot(u, side) == 0.0 && l > 0.0 && Dot(side, side) == l * l && q >= 0.0
    ensures var v := Add(Scale(u, p), Scale(Scale(side, 1.0 / l), q));
            && Dot(v, side) == q * l
            && q / l >= 0.0 && v == Add(Scale(u, p), Scale(side, q / l))
  {
    var w := Scale(side, 1.0 / l);
    PoleDot(u, side, l, p, q);
    Quotient(q, l);
    assert Scale(w, q) == Scale(side, q / l);
  }

  lemma SineIsPositive(a: real, b: real, r: real, c: real, s: real)
    requires a > 0.0 && b > 0.0 && 0.0 < r < a + b && 2.0 * a * r > 0.0
    requires c == ShoulderCosine(a, b, r) && s >= 0.0 && s * s + c * c == 1.0
    ensures r > Abs(a - b) ==> a * s > 0.0
    ensures a * s >= 0.0
  {
    ShoulderCosineMeans(a, b, r);
    SineIsZero(c, s);
    if s > 0.0 {
      ProductIsPositive(a, s);
    }
  }

  /** The elbow lies in the plane of axis and pole, on the pole's side, strictly if the arm can bend. */
  lemma ElbowIsOnThePoleSide(m: Maths, root: V3, target: V3, lenA: real, lenB: real, pole: V3)
    requires Lawful(m) && lenA > 0.0 && lenB > 0.0
    requires Length(m, Projected(pole, Normalize(m, Sub(target, root)))) >= 0.000001
    ensures var away := Sub(SolveTwoBoneIk(m, root, target, lenA, lenB, pole).elbow, root);
            var axis := Normalize(m, Sub(target, root));
            var side := Projected(pole, axis);
            && Dot(away, side) >= 0.0
            && (0.9995 * (lenA + lenB) > Abs(lenA - lenB) ==> Dot(away, side) > 0.0)
            && (exists p: real, q: real :: q >= 0.0 && away == Add(Scale(axis, p), Scale(side, q)))
  {
    var u, w, r, c, s := Solution(m, root, target, lenA, lenB, pole);
    var side := Projected(pole, u);
    var l := Length(m, side);
    ProjectedIsNormal(pole, u);
    LengthIs(m, side, l);
    SineIsPositive(lenA, lenB, r, c, s);
    ReachIsShortOnly(Length(m, Sub(target, root)), lenA, lenB);
    PoleSide(u, side, l, lenA * c, lenA * s);
    Away(root, Add(Scale(u, lenA * c), Scale(w, lenA * s)));
    if lenA * s > 0.0 {
      ProductIsPositive(lenA * s, l);
    }
  }

  // ---- The angle at the elbow ----

  lemma ElbowCosineMeans(a: real, b: real, r: real, c: real)
    requires a > 0.0 && b > 0.0 && Abs(a - b) <= r < a + b && 2.0 * a * b > 0.0
    requires c == ElbowCosine(a, b, r)
    ensures c * (2.0 * a * b) == a * a + b * b - r * r
  {
    var n, d := a * a + b * b - r * r, 2.0 * a * b;
    var gap := Abs(a - b);
    SquareOrder(r, gap);
    SquareOrder(a + b, r);
    assert gap * gap == a * a + b * b - d;
    assert (a + b) * (a + b) == a * a + b * b + d;
    ClampedQuotient(n, d);
  }

  /** The cosine rule for two vectors. */
  lemma SquareOfDifference(p: V3, q: V3)
    ensures Dot(Sub(q, p), Sub(q, p)) == Dot(p, p) + Dot(q, q) - 2.0 * Dot(p, q)
  {
    assert (q.x - p.x) * (q.x - p.x) == p.x * p.x + q.x * q.x - 2.0 * (p.x * q.x);
    assert (q.y - p.y) * (q.y - p.y) == p.y * p.y + q.y * q.y - 2.0 * (p.y * q.y);
    assert (q.z - p.z) * (q.z - p.z) == p.z * p.z + q.z * q.z - 2.0 * (p.z * q.z);
  }

  lemma SameDot(a: V3, b: V3)
    ensures Dot(Sub(a, b), Sub(a, b)) == Dot(Sub(b, a), Sub(b, a))
  {
    assert (a.x - b.x) * (a.x - b.x) == (b.x - a.x) * (b.x - a.x);
    assert (a.y - b.y) * (a.y - b.y) == (b.y - a.y) * (b.y - a.y);
    assert (a.z - b.z) * (a.z - b.z) == (b.z - a.z) * (b.z - a.z);
  }

  lemma SidesFixTheDot(root: V3, elbow: V3, end: V3, aa: real, bb: real, rr: real)
    requires Dot(Sub(elbow, root), Sub(elbow, root)) == aa
    requires Dot(Sub(end, elbow), Sub(end, elbow)) == bb
    requires Dot(Sub(end, root), Sub(end, root)) == rr
    ensures 2.0 * Dot(Sub(root, elbow), Sub(end, elbow)) == aa + bb - rr
  {
    SameDot(elbow, root);
    SquareOfDifference(Sub(root, elbow), Sub(end, elbow));
    assert Sub(Sub(end, elbow), Sub(root, elbow)) == Sub(end, root);
  }

  lemma TriangleOfSolution(m: Maths, root: V3, target: V3, lenA: real, lenB: real, pole: V3) returns (r: real)
    requires Lawful(m) && lenA > 0.0 && lenB > 0.0
    requires SolutionFits(m, root, target, lenA, lenB, pole)
    ensures r == ReachOf(m, root, target, lenA, lenB) && Abs(lenA - lenB) <= r < lenA + lenB && r > 0.0
    ensures var ik := SolveTwoBoneIk(m, root, target, lenA, lenB, pole);
            2.0 * Dot(Sub(root, ik.elbow), Sub(ik.end, ik.elbow)) == lenA * lenA + lenB * lenB - r * r
  {
    r := ReachOf(m, root, target, lenA, lenB);
    var dist := Length(m, Sub(target, root));
    var ik := SolveTwoBoneIk(m, root, target, lenA, lenB, pole);
    BonesKeepTheirLengths(m, root, target, lenA, lenB, pole);
    HandIsAway(m, root, target, lenA, lenB, pole);
    ReachIsPositive(dist, lenA, lenB);
    ReachIsShortOnly(dist, lenA, lenB);
    LengthIs(m, Sub(ik.elbow, root), lenA);
    LengthIs(m, Sub(ik.end, ik.elbow), lenB);
    LengthIs(m, Sub(ik.end, root), r);
    SidesFixTheDot(root, ik.elbow, ik.end, lenA * lenA, lenB * lenB, r * r);
  }

  /** The reported bend is the angle by which the forearm leaves the line of the upper arm; c is the
      cosine of the angle between the two bones. */
  lemma BendIsTheElbowAngle(m: Maths, root: V3, target: V3, lenA: real, lenB: real, pole: V3) returns (c: real)
    requires Lawful(m) && lenA > 0.0 && lenB > 0.0
    requires SolutionFits(m, root, target, lenA, lenB, pole)
    ensures c == m.cos(m.pi - SolveTwoBoneIk(m, root, target, lenA, lenB, pole).bendRad)
    ensures var ik := SolveTwoBoneIk(m, root, target, lenA, lenB, pole);
            c * (2.0 * lenA * lenB) == 2.0 * Dot(Sub(root, ik.elbow), Sub(ik.end, ik.elbow))
  {
    var r := TriangleOfSolution(m, root, target, lenA, lenB, pole);
    ProductIsPositive(lenA, lenB);
    BendOf(m, root, target, lenA, lenB, pole, r);
    c := ElbowCosine(lenA, lenB, r);
    ElbowCosineMeans(lenA, lenB, r, c);
  }

  lemma BendOf(m: Maths, root: V3, target: V3, lenA: real, lenB: real, pole: V3, r: real)
    requires Lawful(m) && lenA > 0.0 && lenB > 0.0 && 2.0 * lenA * lenB > 0.0
    requires r == ReachOf(m, root, target, lenA, lenB)
    ensures m.cos(m.pi - SolveTwoBoneIk(m, root, target, lenA, lenB, pole).bendRad) == ElbowCosine(lenA, lenB, r)
  {
    var c := ElbowCosine(lenA, lenB, r);
    var ik := SolveTwoBoneIk(m, root, target, lenA, lenB, pole);
    assert ik.bendRad == m.pi - m.acos(c);
    assert m.cos(m.acos(c)) == c;
  }
}
