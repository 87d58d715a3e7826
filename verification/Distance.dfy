/** The floored Euclidean distance the AI graph measures with. */
module Distance {

  const INT_MAX: int := 0x7fff_ffff

  datatype Point = Point(x: int, y: int, z: int)

  function Squared(p: Point, q: Point): (s: nat)
    ensures s == 0 <==> p == q
  {
    SumOfSquares(p.x - q.x, p.y - q.y, p.z - q.z);
    (p.x - q.x) * (p.x - q.x) + (p.y - q.y) * (p.y - q.y) + (p.z - q.z) * (p.z - q.z)
  }

  lemma SquarePositive(a: int)
    ensures a * a >= 0 && (a * a == 0 <==> a == 0)
  {
    if a > 0 { assert a * a > 0; } else if a < 0 { assert (-a) * (-a) > 0; }
  }

  lemma SumOfSquares(a: int, b: int, c: int)
    ensures a * a + b * b + c * c >= 0
    ensures a * a + b * b + c * c == 0 <==> a == 0 && b == 0 && c == 0
  {
    SquarePositive(a);
    SquarePositive(b);
    SquarePositive(c);
  }

  // ---------- The floored square root ----------

  ghost predicate IsRoot(n: nat, r: nat) {
    r * r <= n < (r + 1) * (r + 1)
  }

  lemma SquaresMonotone(a: nat, b: nat)
    requires a <= b
    ensures a * a <= b * b
  {
    assert b * b - a * a == (b - a) * (b + a) >= 0;
  }

  lemma RootsOrdered(m: nat, n: nat, a: nat, b: nat)
    requires m <= n && IsRoot(m, a) && IsRoot(n, b)
    ensures a <= b
  {
    if b < a { SquaresMonotone(b + 1, a); }
  }

  lemma RootDoubles(n: nat, s: nat)
    requires IsRoot(n / 4, s)
    ensures (2 * s) * (2 * s) <= n < (2 * s + 2) * (2 * s + 2)
  {
    assert (2 * s) * (2 * s) == 4 * (s * s);
    assert (2 * s + 2) * (2 * s + 2) == 4 * ((s + 1) * (s + 1));
  }

  // Two numbers whose roots are in order are themselves in order, up to twice the smaller root.
  lemma RootExcess(s: nat, t: nat, d: nat, e: nat)
    requires IsRoot(s, d) && IsRoot(t, e) && d <= e
    ensures s <= t + 2 * d
  {
    SquaresMonotone(d, e);
    assert (d + 1) * (d + 1) == d * d + 2 * d + 1;
  }

  // The square root, cut down to an integer.
  function FloorSqrt(n: nat): (r: nat)
    ensures IsRoot(n, r) && r * r <= n < (r + 1) * (r + 1)
  {
    if n == 0 then 0
    else
      var s := FloorSqrt(n / 4);
      RootDoubles(n, s);
      if (2 * s + 1) * (2 * s + 1) <= n then 2 * s + 1 else 2 * s
  }

  // The contract determines the result.
  lemma FloorSqrtUnique(n: nat, r: nat)
    requires IsRoot(n, r)
    ensures FloorSqrt(n) == r
  {
    RootsOrdered(n, n, r, FloorSqrt(n));
    RootsOrdered(n, n, FloorSqrt(n), r);
  }

  // ---------- The distance ----------

  // What get_distance computes, for squares an int can hold.
  function Between(p: Point, q: Point): (d: nat)
    ensures IsRoot(Squared(p, q), d)
  {
    FloorSqrt(Squared(p, q))
  }

  lemma Symmetric(p: Point, q: Point)
    ensures Between(p, q) == Between(q, p)
  {
    assert Squared(p, q) == Squared(q, p) by {
      Negated(p.x - q.x);
      Negated(p.y - q.y);
      Negated(p.z - q.z);
    }
  }

  lemma Negated(a: int)
    ensures a * a == (-a) * (-a)
  {
  }

  lemma ZeroIffEqual(p: Point, q: Point)
    ensures Between(p, q) == 0 <==> p == q
  {
    if p == q { FloorSqrtUnique(0, 0); }
  }

  // Distances measured stay far below the sentinel of the searches.
  lemma BelowSentinel(p: Point, q: Point)
    requires Squared(p, q) <= INT_MAX
    ensures Between(p, q) <= 46340 < INT_MAX
  {
    RootsOrdered(Squared(p, q), INT_MAX, Between(p, q), 46340);
  }

  // ---------- The near-triangle inequality ----------

  lemma Regroup(a: int, b: int, c: int, d: int)
    ensures (a * b) * (c * d) == (a * c) * (b * d)
  {
  }

  lemma SquareOfSum(p: int, q: int, r: int)
    ensures (p + q + r) * (p + q + r) == p * p + q * q + r * r + 2 * (p * q) + 2 * (p * r) + 2 * (q * r)
  {
  }

  lemma SquareOfDifference(s: int, t: int)
    ensures (s - t) * (s - t) == s * s + t * t - 2 * (s * t)
  {
  }

  lemma ProductOfSums(a: int, b: int, c: int, u: int, v: int, w: int)
    ensures (a + b + c) * (u + v + w) == a * u + a * v + a * w + b * u + b * v + b * w + c * u + c * v + c * w
  {
  }

  // Lagrange's identity.
  lemma Lagrange(a: int, b: int, c: int, u: int, v: int, w: int)
    ensures (a * a + b * b + c * c) * (u * u + v * v + w * w)
         == (a * u + b * v + c * w) * (a * u + b * v + c * w)
          + (a * v - b * u) * (a * v - b * u) + (a * w - c * u) * (a * w - c * u) + (b * w - c * v) * (b * w - c * v)
  {
    var p, q, r := a * u, b * v, c * w;
    var av, bu, aw, cu, bw, cv := a * v, b * u, a * w, c * u, b * w, c * v;
    var left := (a * a + b * b + c * c) * (u * u + v * v + w * w);
    assert left == p * p + av * av + aw * aw + bu * bu + q * q + bw * bw + cu * cu + cv * cv + r * r by {
      ProductOfSums(a * a, b * b, c * c, u * u, v * v, w * w);
      Regroup(a, a, u, u); Regroup(a, a, v, v); Regroup(a, a, w, w);
      Regroup(b, b, u, u); Regroup(b, b, v, v); Regroup(b, b, w, w);
      Regroup(c, c, u, u); Regroup(c, c, v, v); Regroup(c, c, w, w);
    }
    SquareOfSum(p, q, r);
    SquareOfDifference(av, bu);
    SquareOfDifference(aw, cu);
    SquareOfDifference(bw, cv);
    Crossed(a, u, b, v);
    Crossed(a, u, c, w);
    Crossed(b, v, c, w);
  }

  lemma Crossed(a: int, u: int, b: int, v: int)
    ensures (a * v) * (b * u) == (a * u) * (b * v)
  {
  }

  lemma CauchySchwarz(a: int, b: int, c: int, u: int, v: int, w: int)
    ensures (a * u + b * v + c * w) * (a * u + b * v + c * w)
         <= (a * a + b * b + c * c) * (u * u + v * v + w * w)
  {
    SumOfSquares(a * v - b * u, a * w - c * u, b * w - c * v);
    Lagrange(a, b, c, u, v, w);
  }

  lemma ProductBelow(d: int, s: nat, t: nat, m: nat, n: nat)
    requires d * d <= s * t && s < m * m && t < n * n
    ensures d < m * n
  {
    Regroup(m, m, n, n);
    assert s * t <= s * (n * n) < (m * m) * (n * n) by {
      assert s * (n * n - t) >= 0 && (m * m - s) * (n * n) > 0;
    }
    if d >= m * n {
      SquaresMonotone(m * n, d);
    }
  }

  lemma RootBelowSum(r: nat, s: nat, t: nat, dot: int, m: nat, n: nat)
    requires r * r <= s + t + 2 * dot && s < m * m && t < n * n && dot < m * n
    ensures r < m + n
  {
    if m + n <= r {
      SquaresMonotone(m + n, r);
      SquareOfSum(m, n, 0);
    }
  }

  // The inner product of the two legs of a path.
  function Dot(p: Point, q: Point, r: Point): int {
    (p.x - q.x) * (q.x - r.x) + (p.y - q.y) * (q.y - r.y) + (p.z - q.z) * (q.z - r.z)
  }

  lemma SquareOfPath(a: int, b: int)
    ensures (a + b) * (a + b) == a * a + b * b + 2 * (a * b)
  {
  }

  lemma SquaredOfPath(p: Point, q: Point, r: Point)
    ensures Squared(p, r) == Squared(p, q) + Squared(q, r) + 2 * Dot(p, q, r)
  {
    SquareOfPath(p.x - q.x, q.x - r.x);
    SquareOfPath(p.y - q.y, q.y - r.y);
    SquareOfPath(p.z - q.z, q.z - r.z);
    assert p.x - r.x == (p.x - q.x) + (q.x - r.x) && p.y - r.y == (p.y - q.y) + (q.y - r.y);
    assert p.z - r.z == (p.z - q.z) + (q.z - r.z);
  }

  lemma DotBound(p: Point, q: Point, r: Point)
    ensures Dot(p, q, r) * Dot(p, q, r) <= Squared(p, q) * Squared(q, r)
  {
    CauchySchwarz(p.x - q.x, p.y - q.y, p.z - q.z, q.x - r.x, q.y - r.y, q.z - r.z);
  }

  // In numbers: sides with these squares and inner product have roots that nearly add up.
  lemma RootsNearlyAdd(whole: nat, s: nat, t: nat, dot: int, r: nat, d: nat, e: nat)
    requires whole == s + t + 2 * dot && dot * dot <= s * t
    requires IsRoot(whole, r) && IsRoot(s, d) && IsRoot(t, e)
    ensures r <= d + e + 1
  {
    ProductBelow(dot, s, t, d + 1, e + 1);
    RootBelowSum(r, s, t, dot, d + 1, e + 1);
  }

  // Flooring costs at most one unit of the triangle inequality.
  lemma NearTriangle(p: Point, q: Point, r: Point)
    ensures Between(p, r) <= Between(p, q) + Between(q, r) + 1
  {
    SquaredOfPath(p, q, r);
    DotBound(p, q, r);
    RootsNearlyAdd(Squared(p, r), Squared(p, q), Squared(q, r), Dot(p, q, r),
                   Between(p, r), Between(p, q), Between(q, r));
  }

  lemma RootOfSquare(p: Point, q: Point, n: nat, r: nat)
    requires Squared(p, q) == n && r * r <= n && n < (r + 1) * (r + 1)
    ensures Between(p, q) == r
  {
    FloorSqrtUnique(n, r);
  }

  lemma ShortDiagonal(a: int)
    ensures Squared(Point(a, a, a), Point(a + 1, a + 1, a + 1)) == 3
  {
  }

  lemma LongDiagonal()
    ensures Squared(Point(0, 0, 0), Point(2, 2, 2)) == 12
  {
  }

  // The unit is needed: these three points on a diagonal break the plain inequality.
  lemma PlainTriangleFails()
    ensures Between(Point(0, 0, 0), Point(2, 2, 2))
         == Between(Point(0, 0, 0), Point(1, 1, 1)) + Between(Point(1, 1, 1), Point(2, 2, 2)) + 1
  {
    ShortDiagonal(0);
    ShortDiagonal(1);
    LongDiagonal();
    RootOfSquare(Point(0, 0, 0), Point(1, 1, 1), 3, 1);
    RootOfSquare(Point(1, 1, 1), Point(2, 2, 2), 3, 1);
    RootOfSquare(Point(0, 0, 0), Point(2, 2, 2), 12, 3);
  }
}
