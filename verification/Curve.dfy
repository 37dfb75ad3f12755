/** Jacobian doubling and addition on y^2 = x^3 + B modulo P (crypto/secp256k1/curve.go). */
module Curve {
  import opened Common

  // ----- congruences

  ghost predicate Cong(p: int, a: int, b: int) {
    exists k: int :: a - b == k * p
  }

  lemma CongBy(p: int, a: int, b: int, k: int)
    requires a - b == k * p
    ensures Cong(p, a, b)
  {
  }

  lemma CongRefl(p: int, a: int)
    ensures Cong(p, a, a)
  {
    CongBy(p, a, a, 0);
  }

  lemma CongSym(p: int, a: int, b: int)
    requires Cong(p, a, b)
    ensures Cong(p, b, a)
  {
    var k :| a - b == k * p;
    assert b - a == (-k) * p;
  }

  lemma CongTrans(p: int, a: int, b: int, c: int)
    requires Cong(p, a, b) && Cong(p, b, c)
    ensures Cong(p, a, c)
  {
    var k :| a - b == k * p;
    var l :| b - c == l * p;
    assert a - c == (k + l) * p;
  }

  lemma CongAdd(p: int, a: int, b: int, c: int, d: int)
    requires Cong(p, a, b) && Cong(p, c, d)
    ensures Cong(p, a + c, b + d)
  {
    var k :| a - b == k * p;
    var l :| c - d == l * p;
    assert (a + c) - (b + d) == (k + l) * p;
  }

  lemma CongSub(p: int, a: int, b: int, c: int, d: int)
    requires Cong(p, a, b) && Cong(p, c, d)
    ensures Cong(p, a - c, b - d)
  {
    var k :| a - b == k * p;
    var l :| c - d == l * p;
    assert (a - c) - (b - d) == (k - l) * p;
  }

  lemma CongMul(p: int, a: int, b: int, c: int, d: int)
    requires Cong(p, a, b) && Cong(p, c, d)
    ensures Cong(p, a * c, b * d)
  {
    var k :| a - b == k * p;
    var l :| c - d == l * p;
    assert a * c - b * d == a * (c - d) + d * (a - b);
    assert a * (l * p) == (a * l) * p && d * (k * p) == (d * k) * p;
    assert a * c - b * d == (a * l + d * k) * p;
  }

  lemma CongMod(p: int, a: int)
    requires p > 0
    ensures Cong(p, a % p, a)
  {
    assert a % p - a == (-(a / p)) * p;
  }

  lemma CongIsModEquality(p: int, a: int, b: int)
    requires p > 0
    ensures Cong(p, a, b) <==> a % p == b % p
  {
    if Cong(p, a, b) {
      var k :| a - b == k * p;
      SameRemainder(p, a, b, k);
    }
    if a % p == b % p {
      assert a - b == (a / p - b / p) * p;
    }
  }

  lemma SameRemainder(p: int, a: int, b: int, k: int)
    requires p > 0 && a == b + k * p
    ensures a % p == b % p
  {
    var q, r := b / p, b % p;
    assert a == (q + k) * p + r;
    var q', r' := a / p, a % p;
    assert (q' - (q + k)) * p == r - r';
    Small(p, q' - (q + k), r - r');
  }

  lemma Small(p: int, m: int, d: int)
    requires m * p == d && -p < d < p
    ensures d == 0
  {
  }

  // ----- the curve

  function Square(a: int): int { a * a }
  function Cube(a: int): int { a * a * a }
  function Sixth(a: int): int { Square(Cube(a)) }

  /** (x, y) satisfies the curve equation modulo p. */
  predicate IsOnCurve(p: int, b: int, x: int, y: int)
    requires p > 0
  {
    (x * x * x + b) % p == (y * y) % p
  }

  /** (x : y : z) is a Jacobian point of the curve: Y^2 = X^3 + B Z^6. */
  ghost predicate OnJacobian(p: int, b: int, x: int, y: int, z: int) {
    Cong(p, Square(y), Cube(x) + b * Sixth(z))
  }

  lemma CongSquare(p: int, a: int, b: int)
    requires Cong(p, a, b)
    ensures Cong(p, Square(a), Square(b))
  {
    CongMul(p, a, b, a, b);
  }

  lemma CongCube(p: int, a: int, b: int)
    requires Cong(p, a, b)
    ensures Cong(p, Cube(a), Cube(b))
  {
    CongMul(p, a, b, a, b);
    CongMul(p, a * a, b * b, a, b);
  }

  /** Being on the curve only depends on the coordinates modulo p. */
  lemma OnJacobianCong(p: int, b: int, x: int, y: int, z: int, x': int, y': int, z': int)
    requires Cong(p, x', x) && Cong(p, y', y) && Cong(p, z', z) && OnJacobian(p, b, x, y, z)
    ensures OnJacobian(p, b, x', y', z')
  {
    CongSquare(p, y', y);
    CongCube(p, x', x);
    CongCube(p, z', z);
    CongSquare(p, Cube(z'), Cube(z));
    CongRefl(p, b);
    CongMul(p, b, b, Sixth(z'), Sixth(z));
    CongAdd(p, Cube(x'), Cube(x), b * Sixth(z'), b * Sixth(z));
    CongSym(p, Cube(x') + b * Sixth(z'), Cube(x) + b * Sixth(z));
    CongTrans(p, Square(y'), Square(y), Cube(x) + b * Sixth(z));
    CongTrans(p, Square(y'), Cube(x) + b * Sixth(z), Cube(x') + b * Sixth(z'));
  }

  /** Multiplying a congruence by anything keeps it. */
  lemma CongScale(p: int, m: int, a: int, b: int)
    requires Cong(p, a, b)
    ensures Cong(p, m * a, m * b)
  {
    CongRefl(p, m);
    CongMul(p, m, m, a, b);
  }

  /** A last coordinate m (d - x3) - c, with x3 already reduced. */
  lemma LastY(p: int, m: int, d: int, x3: int, x: int, c: int, y: int)
    requires p > 0 && Cong(p, x3, x) && m * (d - x) - c == y
    ensures Cong(p, (m * (d - x3) - c) % p, y)
  {
    CongMod(p, m * (d - x3) - c);
    CongRefl(p, d);
    CongSub(p, d, d, x3, x);
    CongScale(p, m, d - x3, d - x);
    CongRefl(p, c);
    CongSub(p, m * (d - x3), m * (d - x), c, c);
    CongTrans(p, (m * (d - x3) - c) % p, m * (d - x3) - c, y);
  }

  // ----- doubling

  /** The formula dbl-2009-l, reduced at the end of each coordinate. */
  function DoubleJacobian(p: int, x: int, y: int, z: int): (int, int, int)
    requires p > 0
  {
    var a := x * x;
    var b := y * y;
    var c := b * b;
    var d := 2 * ((x + b) * (x + b) - a - c);
    var e := 3 * a;
    var f := e * e;
    var x3 := (f - 2 * d) % p;
    var y3 := (e * (d - x3) - 8 * c) % p;
    var z3 := (2 * (y * z)) % p;
    (x3, y3, z3)
  }

  /** The doubled coordinates before any reduction, as polynomials in x, u = x^3 and v = y^2. */
  lemma DoublingExact(x: int, y: int)
    ensures var a, b := x * x, y * y;
            var d := 2 * ((x + b) * (x + b) - a - b * b);
            && d == 4 * (x * b)
            && (3 * a) * (3 * a) - 2 * d == x * (9 * Cube(x) - 8 * b)
            && 3 * a * (d - x * (9 * Cube(x) - 8 * b)) - 8 * (b * b)
               == 36 * (Cube(x) * b) - 27 * (Cube(x) * Cube(x)) - 8 * (b * b)
  {
  }

  /** The identity behind doubling: Y3^2 - X3^3 = 64 v^3 (v - u). */
  lemma DoublingIdentity(u: int, v: int)
    ensures Square(36 * (u * v) - 27 * (u * u) - 8 * (v * v)) == u * Cube(9 * u - 8 * v) + 64 * Cube(v) * (v - u)
  {
  }

  lemma CubeOfProduct(a: int, b: int)
    ensures Cube(a * b) == Cube(a) * Cube(b)
  {
  }

  lemma SixthOfProduct(a: int, b: int)
    ensures Sixth(a * b) == Sixth(a) * Sixth(b)
  {
  }

  lemma DoubledZ(y: int, z: int)
    ensures Sixth(2 * (y * z)) == 64 * Cube(y * y) * Sixth(z)
  {
    SixthOfProduct(2, y * z);
    SixthOfProduct(y, z);
    var c := Cube(y);
    assert c * c == Cube(y * y) by { CubeOfProduct(y, y); }
    assert Sixth(2) == 64;
    assert Sixth(2 * (y * z)) == 64 * (Cube(y * y) * Sixth(z));
  }

  /** Before reduction the doubled point is on the curve whenever the point is. */
  lemma DoublingKeepsCurveExact(p: int, b: int, x: int, y: int, z: int)
    requires OnJacobian(p, b, x, y, z)
    ensures var u, v := Cube(x), y * y;
            OnJacobian(p, b, x * (9 * u - 8 * v), 36 * (u * v) - 27 * (u * u) - 8 * (v * v), 2 * (y * z))
  {
    var u, v, s := Cube(x), y * y, b * Sixth(z);
    DoublingIdentity(u, v);
    CubeOfProduct(x, 9 * u - 8 * v);
    DoubledZ(y, z);
    Swap(b, 64 * Cube(v), Sixth(z));
    Shifted(p, u * Cube(9 * u - 8 * v), 64 * Cube(v), u, v, s);
  }

  lemma Swap(b: int, m: int, n: int)
    ensures b * (m * n) == m * (b * n)
  {
  }

  lemma Shifted(p: int, k: int, m: int, u: int, v: int, s: int)
    requires Cong(p, v, u + s)
    ensures Cong(p, k + m * (v - u), k + m * s)
  {
    CongScale(p, m, v, u + s);
    CongRefl(p, k - m * u);
    CongAdd(p, k - m * u, k - m * u, m * v, m * (u + s));
    assert m * (u + s) == m * u + m * s && m * (v - u) == m * v - m * u;
  }

  /** Doubling keeps the curve, for every modulus and every constant. */
  lemma DoublingKeepsCurve(p: int, b: int, x: int, y: int, z: int)
    requires p > 0 && OnJacobian(p, b, x, y, z)
    ensures var (x3, y3, z3) := DoubleJacobian(p, x, y, z); OnJacobian(p, b, x3, y3, z3)
  {
    var u, v := Cube(x), y * y;
    var (x3, y3, z3) := DoubleJacobian(p, x, y, z);
    var d, e, xe := 4 * (x * v), 3 * (x * x), x * (9 * u - 8 * v);
    DoublingExact(x, y);
    CongMod(p, xe);
    CongMod(p, 2 * (y * z));
    LastY(p, e, d, x3, xe, 8 * (v * v), 36 * (u * v) - 27 * (u * u) - 8 * (v * v));
    DoublingKeepsCurveExact(p, b, x, y, z);
    OnJacobianCong(p, b, xe, 36 * (u * v) - 27 * (u * u) - 8 * (v * v), 2 * (y * z), x3, y3, z3);
  }

  // ----- back to affine coordinates

  /** The affine point, zinv being the inverse of z modulo p. */
  function AffineFromJacobian(p: int, x: int, y: int, zinv: int): (int, int)
    requires p > 0
  {
    ((x * (zinv * zinv)) % p, (y * (zinv * zinv * zinv)) % p)
  }

  /** The Jacobian equation, scaled by the sixth power of the inverse of z. */
  lemma ScaledEquation(p: int, b: int, x: int, y: int, z: int, zinv: int)
    requires p > 0 && OnJacobian(p, b, x, y, z) && (z * zinv) % p == 1 % p
    ensures Cong(p, Square(y * Cube(zinv)), Cube(x * (zinv * zinv)) + b)
  {
    var q, c, s := zinv * zinv, Cube(zinv), Sixth(zinv);
    ScaledTerms(x, y, zinv);
    CongScale(p, s, Square(y), Cube(x) + b * Sixth(z));
    assert s * (Cube(x) + b * Sixth(z)) == s * Cube(x) + b * (Sixth(z) * s) by {
      assert s * (b * Sixth(z)) == b * (Sixth(z) * s);
    }
    InverseSixth(p, z, zinv);
    CongScale(p, b, Sixth(z) * s, 1);
    CongRefl(p, Cube(x * q));
    CongAdd(p, Cube(x * q), Cube(x * q), b * (Sixth(z) * s), b * 1);
    CongTrans(p, Square(y * c), Cube(x * q) + b * (Sixth(z) * s), Cube(x * q) + b);
  }

  lemma ScaledTerms(x: int, y: int, zinv: int)
    ensures Sixth(zinv) * Square(y) == Square(y * Cube(zinv))
    ensures Sixth(zinv) * Cube(x) == Cube(x * (zinv * zinv))
  {
  }

  lemma InverseSixth(p: int, z: int, zinv: int)
    requires p > 0 && (z * zinv) % p == 1 % p
    ensures Cong(p, Sixth(z) * Sixth(zinv), 1)
  {
    CongIsModEquality(p, z * zinv, 1);
    CongCube(p, z * zinv, 1);
    CongSquare(p, Cube(z * zinv), Cube(1));
    SixthOfProduct(z, zinv);
    assert Sixth(1) == 1;
  }

  lemma AffineIsOnCurve(p: int, b: int, x: int, y: int, z: int, zinv: int)
    requires p > 0 && OnJacobian(p, b, x, y, z) && (z * zinv) % p == 1 % p
    ensures var (ax, ay) := AffineFromJacobian(p, x, y, zinv); IsOnCurve(p, b, ax, ay)
  {
    ScaledEquation(p, b, x, y, z, zinv);
    var xq, yc := x * (zinv * zinv), y * (zinv * zinv * zinv);
    var ax, ay := xq % p, yc % p;
    CongMod(p, xq);
    CongMod(p, yc);
    CongSquare(p, ay, yc);
    CongCube(p, ax, xq);
    CongRefl(p, b);
    CongAdd(p, Cube(ax), Cube(xq), b, b);
    CongSym(p, Cube(ax) + b, Cube(xq) + b);
    CongTrans(p, Square(ay), Square(yc), Cube(xq) + b);
    CongTrans(p, Square(ay), Cube(xq) + b, Cube(ax) + b);
    CongIsModEquality(p, Square(ay), Cube(ax) + b);
  }

  lemma AffineStart(p: int, b: int, x: int, y: int)
    requires p > 0 && IsOnCurve(p, b, x, y)
    ensures OnJacobian(p, b, x, y, 1)
  {
    assert Sixth(1) == 1;
    CongIsModEquality(p, y * y, x * x * x + b);
  }

  // ----- addition

  /** A difference made non-negative by adding the modulus once, as the code does. */
  function Lift(p: int, a: int): int {
    if a < 0 then a + p else a
  }

  lemma CongLift(p: int, a: int)
    ensures Cong(p, Lift(p, a), a)
  {
    CongBy(p, Lift(p, a), a, if a < 0 then 1 else 0);
  }

  /** The formula add-2007-bl with the reductions of the code. */
  function AddJacobian(p: int, x1: int, y1: int, z1: int, x2: int, y2: int, z2: int): (int, int, int)
    requires p > 0
  {
    var z1z1 := (z1 * z1) % p;
    var z2z2 := (z2 * z2) % p;
    var u1 := (x1 * z2z2) % p;
    var u2 := (x2 * z1z1) % p;
    var h := Lift(p, u2 - u1);
    var s1 := (y1 * z2 * z2z2) % p;
    var s2 := (y2 * z1 * z1z1) % p;
    var r := Lift(p, s2 - s1);
    Sum(p, u1, s1, h, r, Lift(p, Lift(p, (z1 + z2) * (z1 + z2) - z1z1) - z2z2))
  }

  /** The last part: i = (2h)^2, j = h i, and the doubled r; zz stands for 2 z1 z2. */
  function Sum(p: int, u1: int, s1: int, h: int, r: int, zz: int): (int, int, int)
    requires p > 0
  {
    var i := (2 * h) * (2 * h);
    var j := h * i;
    var v := u1 * i;
    var x3 := ((2 * r) * (2 * r) - j - v - v) % p;
    var y3 := (2 * r * (v - x3) - 2 * (s1 * j)) % p;
    var z3 := (zz * h) % p;
    (x3, y3, z3)
  }

  /** The quantities of the addition formula: h3 = h^3, w = u h^2, a = r^2 - h^3 - 2 w, d = w - a, and
      e, which vanishes on a chord of the curve. */
  ghost predicate Terms(u: int, s: int, h: int, r: int, h3: int, w: int, a: int, d: int, e: int) {
    && h3 == h * h * h && w == u * (h * h)
    && a == r * r - h3 - 2 * w && d == w - a
    && e == r * r + 2 * (s * r) - h3 - 3 * w - 3 * (u * u * h)
  }

  /** The identity behind addition. */
  lemma AdditionIdentity(u: int, s: int, h: int, r: int, h3: int, w: int, a: int, d: int, e: int)
    requires Terms(u, s, h, r, h3, w, a, d, e)
    ensures Square(r * d - s * h3) == Cube(a) + (s * s - Cube(u)) * (h3 * h3) - (d * h3) * e
  {
    var rs := s * r;
    var t := w * w + w * a + a * a;
    ExpandSquare(r, d, s, h3);
    assert Cube(u) * (h3 * h3) - Cube(a) == d * t by {
      CubeOfProduct(u, h * h);
      CubeOfProduct(h, h);
      DifferenceOfCubes(w, a);
    }
    assert (r * r) * d - 2 * (rs * h3) + t == -(h3 * e) by { Bracket(u, h, r, rs); }
    Finish(r * r, d, rs * h3, s * s, h3, Cube(u), Cube(a), t, e);
  }

  lemma Finish(rr: int, d: int, m: int, ss: int, h3: int, u3: int, a3: int, t: int, e: int)
    requires u3 * (h3 * h3) - a3 == d * t && rr * d - 2 * m + t == -(h3 * e)
    ensures rr * (d * d) - 2 * (m * d) + ss * (h3 * h3) == a3 + (ss - u3) * (h3 * h3) - (d * h3) * e
  {
  }

  lemma ExpandSquare(r: int, d: int, s: int, c: int)
    ensures Square(r * d - s * c) == (r * r) * (d * d) - 2 * ((s * r * c) * d) + (s * s) * (c * c)
  {
  }

  lemma DifferenceOfCubes(w: int, a: int)
    ensures Cube(w) - Cube(a) == (w - a) * (w * w + w * a + a * a)
  {
  }

  /** r^2 d - 2 r s h^3 + w^2 + w a + a^2 = -h^3 e. */
  lemma Bracket(u: int, h: int, r: int, rs: int)
    ensures var h3 := h * h * h;
            var w := u * (h * h);
            var a := r * r - h3 - 2 * w;
            var d := w - a;
            (r * r) * d - 2 * (rs * h3) + w * w + w * a + a * a
              == -(h3 * (r * r + 2 * rs - h3 - 3 * w - 3 * (u * u * h)))
  {
  }

  /** Before the last reductions the sum is 4 times A, 8 times the bracket and 2 z1 z2 h. */
  lemma SumExact(u1: int, s1: int, h: int, r: int)
    ensures var h2, h3 := h * h, h * h * h;
            var i := (2 * h) * (2 * h);
            var a := r * r - h3 - 2 * (u1 * h2);
            var d := u1 * h2 - a;
            && (2 * r) * (2 * r) - h * i - u1 * i - u1 * i == 4 * a
            && 2 * r * (u1 * i - 4 * a) - 2 * (s1 * (h * i)) == 8 * (r * d - s1 * h3)
  {
    var h2, h3 := h * h, h * h * h;
    var i := (2 * h) * (2 * h);
    var a := r * r - h3 - 2 * (u1 * h2);
    assert i == 4 * h2 && h * i == 4 * h3 && u1 * i == 4 * (u1 * h2);
    assert (2 * r) * (2 * r) == 4 * (r * r);
    assert r * (4 * (u1 * h2 - a)) == 4 * (r * (u1 * h2 - a));
    assert s1 * (4 * h3) == 4 * (s1 * h3);
  }

  lemma SixthOfZh(zc: int, h: int)
    ensures Sixth(2 * zc * h) == 64 * (Sixth(zc) * (Cube(h) * Cube(h)))
  {
  }

  /** The square of the bracket, modulo the curve equation of the first point and the chord. */
  lemma BracketCong(p: int, c: int, u: int, s: int, h: int, r: int, h3: int, w: int, a: int, d: int, e: int)
    requires Terms(u, s, h, r, h3, w, a, d, e)
    requires Cong(p, Square(s), Cube(u) + c) && Cong(p, e, 0)
    ensures Cong(p, Square(r * d - s * h3), Cube(a) + c * (h3 * h3))
  {
    AdditionIdentity(u, s, h, r, h3, w, a, d, e);
    ChordReduced(p, s * s, Cube(u), c, Cube(a), h3 * h3, d * h3, e);
  }

  lemma ChordReduced(p: int, ss: int, u3: int, c: int, a3: int, k: int, m: int, e: int)
    requires Cong(p, ss, u3 + c) && Cong(p, e, 0)
    ensures Cong(p, a3 + (ss - u3) * k - m * e, a3 + c * k)
  {
    CongScale(p, m, e, 0);
    CongRefl(p, u3);
    CongSub(p, ss, u3 + c, u3, u3);
    CongScale(p, k, ss - u3, c);
    CongSub(p, k * (ss - u3), k * c, m * e, m * 0);
    CongRefl(p, a3);
    CongAdd(p, a3, a3, k * (ss - u3) - m * e, k * c - m * 0);
  }

  /** The scaled points (u1, s1) and (u2, s2) lie on y^2 = x^3 + w; then so does their sum. */
  lemma SumKeepsCurveExact(p: int, b: int, zc: int, u1: int, s1: int, u2: int, s2: int, h: int, r: int)
    requires Cong(p, Square(s1), Cube(u1) + b * Sixth(zc)) && Cong(p, Square(s2), Cube(u2) + b * Sixth(zc))
    requires Cong(p, h, u2 - u1) && Cong(p, r, s2 - s1)
    ensures var h2, h3 := h * h, h * h * h;
            var a := r * r - h3 - 2 * (u1 * h2);
            OnJacobian(p, b, 4 * a, 8 * (r * (u1 * h2 - a) - s1 * h3), 2 * zc * h)
  {
    var h3, w := h * h * h, u1 * (h * h);
    var a := r * r - h3 - 2 * w;
    var d, e := w - a, r * r + 2 * (s1 * r) - h3 - 3 * w - 3 * (u1 * u1 * h);
    ChordVanishes(p, b * Sixth(zc), u1, s1, u2, s2, h, r);
    BracketCong(p, b * Sixth(zc), u1, s1, h, r, h3, w, a, d, e);
    ScaleUp(p, b, zc, h, a, r * d - s1 * h3);
  }

  lemma ScaleUp(p: int, b: int, zc: int, h: int, a: int, t: int)
    requires Cong(p, Square(t), Cube(a) + b * Sixth(zc) * (Cube(h) * Cube(h)))
    ensures OnJacobian(p, b, 4 * a, 8 * t, 2 * zc * h)
  {
    var m, k := Sixth(zc), Cube(h) * Cube(h);
    CongScale(p, 64, Square(t), Cube(a) + b * m * k);
    SixthOfZh(zc, h);
    assert b * (64 * (m * k)) == 64 * (b * m * k);
    assert Cube(4 * a) == 64 * Cube(a) by { CubeOfProduct(4, a); }
    assert Square(8 * t) == 64 * Square(t);
  }

  /** The chord relation r^2 + 2 s1 r = h^3 + 3 u1 h^2 + 3 u1^2 h. */
  lemma ChordVanishes(p: int, w: int, u1: int, s1: int, u2: int, s2: int, h: int, r: int)
    requires Cong(p, Square(s1), Cube(u1) + w) && Cong(p, Square(s2), Cube(u2) + w)
    requires Cong(p, h, u2 - u1) && Cong(p, r, s2 - s1)
    ensures Cong(p, r * r + 2 * (s1 * r) - h * h * h - 3 * (u1 * (h * h)) - 3 * (u1 * u1 * h), 0)
  {
    Shift(p, s1, r, s2);
    Shift(p, u1, h, u2);
    ChordCong(p, w, u1, s1, u2, s2, u1 + h, s1 + r);
    SquareOfSum(s1, r);
    CubeOfSum(u1, h);
  }

  lemma Shift(p: int, a: int, d: int, b: int)
    requires Cong(p, d, b - a)
    ensures Cong(p, a + d, b)
  {
  }

  /** Both points satisfy the equation, so the difference of its sides is the same at both. */
  lemma ChordCong(p: int, w: int, u1: int, s1: int, u2: int, s2: int, u: int, s: int)
    requires Cong(p, Square(s1), Cube(u1) + w) && Cong(p, Square(s2), Cube(u2) + w)
    requires Cong(p, u, u2) && Cong(p, s, s2)
    ensures Cong(p, (Square(s) - Cube(u)) - (Square(s1) - Cube(u1)), 0)
  {
    CurveCong(p, s, s2, u, u2, w);
    Separate(p, Square(s), Cube(u), w);
    Separate(p, Square(s1), Cube(u1), w);
    CongSub(p, Square(s) - Cube(u), w, Square(s1) - Cube(u1), w);
  }

  lemma Separate(p: int, a: int, c: int, w: int)
    requires Cong(p, a, c + w)
    ensures Cong(p, a - c, w)
  {
  }

  lemma SquareOfSum(s: int, r: int)
    ensures Square(s + r) == Square(s) + 2 * (s * r) + r * r
  {
  }

  lemma CubeOfSum(u: int, h: int)
    ensures Cube(u + h) == Cube(u) + 3 * (u * u * h) + 3 * (u * (h * h)) + h * h * h
  {
  }

  /** Reducing the coordinates of the sum does not leave the curve. */
  lemma SumKeepsCurve(p: int, b: int, zc: int, u1: int, s1: int, u2: int, s2: int, h: int, r: int, zz: int)
    requires p > 0 && Cong(p, zz, 2 * zc)
    requires Cong(p, Square(s1), Cube(u1) + b * Sixth(zc)) && Cong(p, Square(s2), Cube(u2) + b * Sixth(zc))
    requires Cong(p, h, u2 - u1) && Cong(p, r, s2 - s1)
    ensures var (x3, y3, z3) := Sum(p, u1, s1, h, r, zz); OnJacobian(p, b, x3, y3, z3)
  {
    var (x3, y3, z3) := Sum(p, u1, s1, h, r, zz);
    var a := r * r - h * h * h - 2 * (u1 * (h * h));
    var t := r * (u1 * (h * h) - a) - s1 * (h * h * h);
    SumCong(p, zc, u1, s1, h, r, zz, a, t);
    SumKeepsCurveExact(p, b, zc, u1, s1, u2, s2, h, r);
    OnJacobianCong(p, b, 4 * a, 8 * t, 2 * zc * h, x3, y3, z3);
  }

  lemma SumCong(p: int, zc: int, u1: int, s1: int, h: int, r: int, zz: int, a: int, t: int)
    requires p > 0 && Cong(p, zz, 2 * zc) && a == r * r - h * h * h - 2 * (u1 * (h * h))
    requires t == r * (u1 * (h * h) - a) - s1 * (h * h * h)
    ensures var (x3, y3, z3) := Sum(p, u1, s1, h, r, zz);
            Cong(p, x3, 4 * a) && Cong(p, y3, 8 * t) && Cong(p, z3, 2 * zc * h)
  {
    var i := (2 * h) * (2 * h);
    var x3 := ((2 * r) * (2 * r) - h * i - u1 * i - u1 * i) % p;
    SumExact(u1, s1, h, r);
    CongMod(p, 4 * a);
    LastY(p, 2 * r, u1 * i, x3, 4 * a, 2 * (s1 * (h * i)), 8 * t);
    SumZ(p, zz, 2 * zc, h);
  }

  lemma SumZ(p: int, zz: int, z: int, h: int)
    requires p > 0 && Cong(p, zz, z)
    ensures Cong(p, (zz * h) % p, z * h)
  {
    CongMod(p, zz * h);
    CongRefl(p, h);
    CongMul(p, zz, z, h, h);
    CongTrans(p, (zz * h) % p, zz * h, z * h);
  }

  /** A Jacobian point scaled by the other point's z. */
  lemma ScaledPoint(p: int, b: int, x: int, y: int, z: int, zo: int, zozo: int)
    requires p > 0 && OnJacobian(p, b, x, y, z) && zozo == (zo * zo) % p
    ensures Cong(p, Square((y * zo * zozo) % p), Cube((x * zozo) % p) + b * Sixth(z * zo))
  {
    ScaledX(p, x, zo, zozo);
    ScaledY(p, y, zo, zozo);
    ScaledByOther(p, b, x, y, z, zo);
    CurveCong(p, (y * zo * zozo) % p, y * Cube(zo), (x * zozo) % p, x * (zo * zo), b * Sixth(z * zo));
  }

  lemma ScaledX(p: int, x: int, zo: int, zozo: int)
    requires p > 0 && zozo == (zo * zo) % p
    ensures Cong(p, (x * zozo) % p, x * (zo * zo))
  {
    CongMod(p, zo * zo);
    CongMod(p, x * zozo);
    CongScale(p, x, zozo, zo * zo);
    CongTrans(p, (x * zozo) % p, x * zozo, x * (zo * zo));
  }

  lemma ScaledY(p: int, y: int, zo: int, zozo: int)
    requires p > 0 && zozo == (zo * zo) % p
    ensures Cong(p, (y * zo * zozo) % p, y * Cube(zo))
  {
    ScaledX(p, y * zo, zo, zozo);
    assert y * zo * (zo * zo) == y * (zo * (zo * zo)) == y * Cube(zo);
  }

  lemma ScaledByOther(p: int, b: int, x: int, y: int, z: int, zo: int)
    requires OnJacobian(p, b, x, y, z)
    ensures Cong(p, Square(y * Cube(zo)), Cube(x * (zo * zo)) + b * Sixth(z * zo))
  {
    ScaledTerms(x, y, zo);
    CongScale(p, Sixth(zo), Square(y), Cube(x) + b * Sixth(z));
    SixthOfProduct(z, zo);
    DistributeOver(Sixth(zo), Cube(x), b, Sixth(z));
  }

  lemma DistributeOver(m: int, c: int, b: int, n: int)
    ensures m * (c + b * n) == m * c + b * (n * m)
  {
  }

  /** The curve equation carries over to congruent coordinates. */
  lemma CurveCong(p: int, s: int, s': int, u: int, u': int, w: int)
    requires Cong(p, s, s') && Cong(p, u, u') && Cong(p, Square(s'), Cube(u') + w)
    ensures Cong(p, Square(s), Cube(u) + w)
  {
    CongSquare(p, s, s');
    CongCube(p, u, u');
    CongSym(p, Cube(u), Cube(u'));
    CongRefl(p, w);
    CongAdd(p, Cube(u'), Cube(u), w, w);
    CongTrans(p, Square(s), Square(s'), Cube(u') + w);
    CongTrans(p, Square(s), Cube(u') + w, Cube(u) + w);
  }

  lemma SumOfZ(p: int, z1: int, z2: int)
    requires p > 0
    ensures Cong(p, Lift(p, Lift(p, (z1 + z2) * (z1 + z2) - (z1 * z1) % p) - (z2 * z2) % p), 2 * (z1 * z2))
  {
    var t := (z1 + z2) * (z1 + z2);
    var l := Lift(p, t - (z1 * z1) % p);
    CongMod(p, z1 * z1);
    CongMod(p, z2 * z2);
    CongRefl(p, t);
    CongLift(p, t - (z1 * z1) % p);
    CongSub(p, t, t, (z1 * z1) % p, z1 * z1);
    CongTrans(p, l, t - (z1 * z1) % p, t - z1 * z1);
    CongLift(p, l - (z2 * z2) % p);
    CongSub(p, l, t - z1 * z1, (z2 * z2) % p, z2 * z2);
    CongTrans(p, Lift(p, l - (z2 * z2) % p), l - (z2 * z2) % p, t - z1 * z1 - z2 * z2);
    assert t == z1 * z1 + 2 * (z1 * z2) + z2 * z2;
  }

  /** Addition keeps the curve, for every modulus and every constant. */
  lemma AdditionKeepsCurve(p: int, b: int, x1: int, y1: int, z1: int, x2: int, y2: int, z2: int)
    requires p > 0 && OnJacobian(p, b, x1, y1, z1) && OnJacobian(p, b, x2, y2, z2)
    ensures var (x3, y3, z3) := AddJacobian(p, x1, y1, z1, x2, y2, z2); OnJacobian(p, b, x3, y3, z3)
  {
    var z1z1, z2z2 := (z1 * z1) % p, (z2 * z2) % p;
    var u1, u2 := (x1 * z2z2) % p, (x2 * z1z1) % p;
    var s1, s2 := (y1 * z2 * z2z2) % p, (y2 * z1 * z1z1) % p;
    ScaledPoint(p, b, x1, y1, z1, z2, z2z2);
    ScaledPoint(p, b, x2, y2, z2, z1, z1z1);
    assert z2 * z1 == z1 * z2;
    CongLift(p, u2 - u1);
    CongLift(p, s2 - s1);
    SumOfZ(p, z1, z2);
    SumKeepsCurve(p, b, z1 * z2, u1, s1, u2, s2, Lift(p, u2 - u1), Lift(p, s2 - s1),
                  Lift(p, Lift(p, (z1 + z2) * (z1 + z2) - z1z1) - z2z2));
  }

  // ----- inverses

  ghost predicate Inverse(p: int, z: int, k: int) { Cong(p, z * k, 1) }

  ghost predicate Invertible(p: int, z: int) { exists k :: Inverse(p, z, k) }

  /** The inverse in range, if there is one. */
  ghost function ModInverse(p: int, z: int): (r: Option<int>)
    requires p > 0
    ensures r.Some? <==> Invertible(p, z)
    ensures r.Some? ==> Inverse(p, z, r.value) && 0 <= r.value < p
  {
    if Invertible(p, z) then
      var k :| Inverse(p, z, k);
      ReducedInverse(p, z, k);
      Some(k % p)
    else None
  }

  lemma ReducedInverse(p: int, z: int, k: int)
    requires p > 0 && Inverse(p, z, k)
    ensures Inverse(p, z, k % p)
  {
    CongMod(p, k);
    CongScale(p, z, k % p, k);
    CongTrans(p, z * (k % p), z * k, 1);
  }

  /** Congruent numbers are invertible together. */
  lemma InvertibleCong(p: int, a: int, b: int)
    requires Cong(p, a, b)
    ensures Invertible(p, a) <==> Invertible(p, b)
  {
    CongSym(p, a, b);
    if Invertible(p, a) { InverseCong(p, a, b); }
    if Invertible(p, b) { InverseCong(p, b, a); }
  }

  lemma InverseCong(p: int, a: int, b: int)
    requires Cong(p, b, a) && Invertible(p, a)
    ensures Invertible(p, b)
  {
    var k :| Inverse(p, a, k);
    CongRefl(p, k);
    CongMul(p, b, a, k, k);
    CongTrans(p, b * k, a * k, 1);
    assert Inverse(p, b, k);
  }

  /** A product is invertible if and only if its factors are. */
  lemma InvertibleProduct(p: int, a: int, b: int)
    ensures Invertible(p, a * b) <==> Invertible(p, a) && Invertible(p, b)
  {
    if Invertible(p, a * b) {
      var k :| Inverse(p, a * b, k);
      assert a * (b * k) == a * b * k == b * (a * k);
      assert Inverse(p, a, b * k) && Inverse(p, b, a * k);
    }
    if Invertible(p, a) && Invertible(p, b) {
      var k :| Inverse(p, a, k);
      var l :| Inverse(p, b, l);
      CongMul(p, a * k, 1, b * l, 1);
      assert a * b * (k * l) == a * k * (b * l);
      assert Inverse(p, a * b, k * l);
    }
  }

  ghost predicate Prime(p: int) {
    p > 1 && forall d :: 1 < d < p ==> !Cong(d, p, 0)
  }

  /** A common divisor that is a combination of the two numbers. */
  lemma {:induction false} Bezout(a: nat, b: nat) returns (g: nat, x: int, y: int)
    requires a > 0
    ensures 0 < g <= a && a * x + b * y == g && Cong(g, a, 0) && Cong(g, b, 0)
    decreases b
  {
    if b == 0 {
      g, x, y := a, 1, 0;
      CongBy(g, a, 0, 1);
      CongBy(g, b, 0, 0);
    } else {
      var q, r := a / b, a % b;
      var x', y';
      g, x', y' := Bezout(b, r);
      x, y := y', x' - q * y';
      BackSubstituted(a, b, q, r, x', y');
      CongScale(g, q, b, 0);
      CongAdd(g, q * b, q * 0, r, 0);
      assert a == q * b + r;
      DivisorIsSmall(g, a);
    }
  }

  lemma BackSubstituted(a: int, b: int, q: int, r: int, x: int, y: int)
    requires a == q * b + r
    ensures a * y + b * (x - q * y) == b * x + r * y
  {
    assert (q * b) * y == b * (q * y);
  }

  lemma DivisorIsSmall(g: nat, a: nat)
    requires g > 0 && a > 0 && Cong(g, a, 0)
    ensures g <= a
  {
    var k :| a - 0 == k * g;
    assert k <= 0 ==> k * g <= 0;
    assert k >= 1 ==> k * g >= g;
  }

  /** Modulo a prime everything but the multiples of the prime is invertible; modulo any p > 1 these are
      not. */
  lemma PrimeInverts(p: int, a: int)
    requires p > 1
    ensures a % p == 0 ==> !Invertible(p, a)
    ensures Prime(p) && a % p != 0 ==> Invertible(p, a)
  {
    if a % p == 0 {
      NothingInvertsZero(p, a);
    } else if Prime(p) {
      var g, x, y := Bezout(a % p, p);
      assert Cong(g, p, 0) && g < p;
      assert g == 1;
      CongBy(p, (a % p) * x, 1, -y);
      assert Inverse(p, a % p, x);
      CongMod(p, a);
      InvertibleCong(p, a % p, a);
    }
  }

  lemma NothingInvertsZero(p: int, a: int)
    requires p > 1 && a % p == 0
    ensures !Invertible(p, a)
  {
    CongIsModEquality(p, a, 0);
    OneIsNotZero(p);
    forall k ensures !Inverse(p, a, k) {
      if Inverse(p, a, k) { OnlyZero(p, a, k); }
    }
  }

  lemma OneIsNotZero(p: int)
    requires p > 1
    ensures !Cong(p, 1, 0)
  {
    forall k: int ensures 1 != k * p {
      assert k >= 1 ==> k * p >= p;
      assert k <= 0 ==> k * p <= 0;
    }
  }

  lemma OnlyZero(p: int, a: int, k: int)
    requires Cong(p, a, 0) && Inverse(p, a, k)
    ensures Cong(p, 1, 0)
  {
    CongRefl(p, k);
    CongMul(p, a, 0, k, k);
    CongSym(p, a * k, 1);
    CongTrans(p, 1, a * k, 0 * k);
  }

  lemma TwoIsInvertible(p: int)
    requires p > 0 && p % 2 == 1
    ensures Invertible(p, 2)
  {
    CongBy(p, 2 * ((p + 1) / 2), 1, 1);
    assert Inverse(p, 2, (p + 1) / 2);
  }

  /** Modulo an odd prime, twice a number is invertible if and only if the number is not a multiple. */
  lemma TwiceInverts(p: int, d: int)
    requires Prime(p) && p % 2 == 1
    ensures Invertible(p, 2 * d) <==> d % p != 0
  {
    TwoIsInvertible(p);
    InvertibleProduct(p, 2, d);
    PrimeInverts(p, d);
  }

  // ----- the affine operations

  /** The affine point, or nothing where z has no inverse. */
  ghost function ToAffine(p: int, j: (int, int, int)): Option<(int, int)>
    requires p > 0
  {
    var zinv := ModInverse(p, j.2);
    if zinv.None? then None else Some(AffineFromJacobian(p, j.0, j.1, zinv.value))
  }

  ghost function Add(p: int, x1: int, y1: int, x2: int, y2: int): Option<(int, int)>
    requires p > 0
  {
    ToAffine(p, AddJacobian(p, x1, y1, 1, x2, y2, 1))
  }

  ghost function Double(p: int, x: int, y: int): Option<(int, int)>
    requires p > 0
  {
    ToAffine(p, DoubleJacobian(p, x, y, 1))
  }

  lemma ToAffineIsOnCurve(p: int, b: int, j: (int, int, int))
    requires p > 0 && OnJacobian(p, b, j.0, j.1, j.2) && Invertible(p, j.2)
    ensures var r := ToAffine(p, j); r.Some? && IsOnCurve(p, b, r.value.0, r.value.1)
  {
    var zinv := ModInverse(p, j.2).value;
    CongIsModEquality(p, j.2 * zinv, 1);
    AffineIsOnCurve(p, b, j.0, j.1, j.2, zinv);
  }

  /** The z coordinate of a sum. */
  lemma SumHasZ(p: int, x1: int, y1: int, z1: int, x2: int, y2: int, z2: int)
    requires p > 0
    ensures Cong(p, AddJacobian(p, x1, y1, z1, x2, y2, z2).2, 2 * (z1 * z2) * (x2 * (z1 * z1) - x1 * (z2 * z2)))
  {
    var z1z1, z2z2 := (z1 * z1) % p, (z2 * z2) % p;
    var u1, u2 := (x1 * z2z2) % p, (x2 * z1z1) % p;
    var zz := Lift(p, Lift(p, (z1 + z2) * (z1 + z2) - z1z1) - z2z2);
    var h, d := Lift(p, u2 - u1), x2 * (z1 * z1) - x1 * (z2 * z2);
    SumOfZ(p, z1, z2);
    ScaledX(p, x1, z2, z2z2);
    ScaledX(p, x2, z1, z1z1);
    CongSub(p, u2, x2 * (z1 * z1), u1, x1 * (z2 * z2));
    CongLift(p, u2 - u1);
    CongTrans(p, h, u2 - u1, d);
    CongMod(p, zz * h);
    CongMul(p, zz, 2 * (z1 * z2), h, d);
    CongTrans(p, (zz * h) % p, zz * h, 2 * (z1 * z2) * d);
  }

  /** For any two points of the curve: the sum is a point of the curve, and it is defined if and only if
      twice the difference of the x coordinates is invertible. */
  lemma AddIsOnCurve(p: int, b: int, x1: int, y1: int, x2: int, y2: int)
    requires p > 0 && IsOnCurve(p, b, x1, y1) && IsOnCurve(p, b, x2, y2)
    ensures var r := Add(p, x1, y1, x2, y2);
            && (r.Some? <==> Invertible(p, 2 * (x2 - x1)))
            && (r.Some? ==> IsOnCurve(p, b, r.value.0, r.value.1))
  {
    var j := AddJacobian(p, x1, y1, 1, x2, y2, 1);
    SumHasZ(p, x1, y1, 1, x2, y2, 1);
    InvertibleCong(p, j.2, 2 * (x2 - x1));
    if Invertible(p, j.2) {
      AffineStart(p, b, x1, y1);
      AffineStart(p, b, x2, y2);
      AdditionKeepsCurve(p, b, x1, y1, 1, x2, y2, 1);
      ToAffineIsOnCurve(p, b, j);
    }
  }

  /** Modulo an odd prime, Add fails exactly on two points with the same x coordinate: equal points and
      opposite ones. */
  lemma AddDefinedIff(p: int, x1: int, y1: int, x2: int, y2: int)
    requires Prime(p) && p % 2 == 1
    ensures Add(p, x1, y1, x2, y2).Some? <==> x1 % p != x2 % p
  {
    SumHasZ(p, x1, y1, 1, x2, y2, 1);
    InvertibleCong(p, AddJacobian(p, x1, y1, 1, x2, y2, 1).2, 2 * (x2 - x1));
    TwiceInverts(p, x2 - x1);
    SameX(p, x1, x2);
  }

  lemma SameX(p: int, x1: int, x2: int)
    requires p > 0
    ensures (x2 - x1) % p == 0 <==> x1 % p == x2 % p
  {
    DifferenceCong(p, x1, x2);
    CongIsModEquality(p, x2, x1);
    CongIsModEquality(p, x2 - x1, 0);
  }

  lemma DifferenceCong(p: int, x1: int, x2: int)
    ensures Cong(p, x2, x1) <==> Cong(p, x2 - x1, 0)
  {
    CongRefl(p, x1);
    if Cong(p, x2, x1) { CongSub(p, x2, x1, x1, x1); }
    if Cong(p, x2 - x1, 0) { CongAdd(p, x2 - x1, 0, x1, x1); }
  }

  /** Adding a point to itself, or to its opposite, gives nothing, for every modulus. */
  lemma AddOfEqualsFails(p: int, x: int, y1: int, y2: int)
    requires p > 1
    ensures Add(p, x, y1, x, y2) == None
  {
    SumHasZ(p, x, y1, 1, x, y2, 1);
    NoAffine(p, AddJacobian(p, x, y1, 1, x, y2, 1), x);
  }

  lemma NoAffine(p: int, j: (int, int, int), x: int)
    requires p > 1 && Cong(p, j.2, 2 * (1 * 1) * (x * (1 * 1) - x * (1 * 1)))
    ensures ToAffine(p, j) == None
  {
    InvertibleCong(p, j.2, 0);
    NothingInvertsZero(p, 0);
  }

  /** For any point of the curve: its double is a point of the curve, and is defined if and only if 2 y is
      invertible. */
  lemma DoubleIsOnCurve(p: int, b: int, x: int, y: int)
    requires p > 0 && IsOnCurve(p, b, x, y)
    ensures var r := Double(p, x, y);
            && (r.Some? <==> Invertible(p, 2 * y))
            && (r.Some? ==> IsOnCurve(p, b, r.value.0, r.value.1))
  {
    var j := DoubleJacobian(p, x, y, 1);
    CongMod(p, 2 * y);
    InvertibleCong(p, j.2, 2 * y);
    if Invertible(p, j.2) {
      AffineStart(p, b, x, y);
      DoublingKeepsCurve(p, b, x, y, 1);
      ToAffineIsOnCurve(p, b, j);
    }
  }

  /** Modulo an odd prime, Double fails exactly on y = 0. */
  lemma DoubleDefinedIff(p: int, x: int, y: int)
    requires Prime(p) && p % 2 == 1
    ensures Double(p, x, y).Some? <==> y % p != 0
  {
    CongMod(p, 2 * y);
    InvertibleCong(p, DoubleJacobian(p, x, y, 1).2, 2 * y);
    TwiceInverts(p, y);
  }

  // ----- the geometric laws

  /** An invertible factor can be cancelled. */
  lemma Cancel(p: int, m: int, a: int, b: int)
    requires Invertible(p, m) && Cong(p, m * a, m * b)
    ensures Cong(p, a, b)
  {
    var k :| Inverse(p, m, k);
    CongScale(p, k, m * a, m * b);
    UnitTimes(p, m, k, a);
    UnitTimes(p, m, k, b);
    CongSym(p, k * (m * a), a);
    CongTrans(p, a, k * (m * a), k * (m * b));
    CongTrans(p, a, k * (m * b), b);
  }

  lemma UnitTimes(p: int, m: int, k: int, a: int)
    requires Inverse(p, m, k)
    ensures Cong(p, k * (m * a), a)
  {
    CongScale(p, a, m * k, 1);
    assert k * (m * a) == a * (m * k);
  }

  /** The affine coordinates, times the powers of z, are the Jacobian ones. */
  lemma AffineTimesZ(p: int, j: (int, int, int))
    requires p > 0 && Invertible(p, j.2)
    ensures var r := ToAffine(p, j);
            r.Some? && Cong(p, j.2 * j.2 * r.value.0, j.0) && Cong(p, j.2 * j.2 * j.2 * r.value.1, j.1)
  {
    var z, w := j.2, ModInverse(p, j.2).value;
    PowersInvert(p, z, w);
    PowersCancel(p, z * z, w * w, j.0);
    PowersCancel(p, z * z * z, w * w * w, j.1);
  }

  lemma PowersInvert(p: int, z: int, w: int)
    requires Cong(p, z * w, 1)
    ensures Cong(p, z * z * (w * w), 1) && Cong(p, z * z * z * (w * w * w), 1)
  {
    CongMul(p, z * w, 1, z * w, 1);
    CongMul(p, (z * w) * (z * w), 1, z * w, 1);
    PowersOfProduct(z, w);
  }

  lemma PowersOfProduct(z: int, w: int)
    ensures (z * w) * (z * w) == z * z * (w * w)
    ensures (z * w) * (z * w) * (z * w) == z * z * z * (w * w * w)
  {
    assert (z * w) * (z * w) == z * z * (w * w);
    var m, n := z * z, w * w;
    assert m * n * (z * w) == (m * z) * (n * w);
  }

  lemma PowersCancel(p: int, m: int, k: int, a: int)
    requires p > 0 && Cong(p, m * k, 1)
    ensures Cong(p, m * ((a * k) % p), a)
  {
    CongMod(p, a * k);
    CongScale(p, m, (a * k) % p, a * k);
    UnitTimes(p, k, m, a);
    assert m * (k * a) == m * (a * k);
    CongTrans(p, m * ((a * k) % p), m * (a * k), a);
  }

  /** Doubling is the tangent: the third point on the tangent at (x, y), reflected.  With slope
      3 x^2 / 2 y, the two equations say where it meets the curve again. */
  lemma TangentLaw(p: int, x: int, y: int)
    requires p > 0 && Double(p, x, y).Some?
    ensures var (x3, y3) := Double(p, x, y).value;
            && Cong(p, 2 * y * (y + y3), 3 * x * x * (x - x3))
            && Cong(p, 4 * y * y * (2 * x + x3), 9 * x * x * x * x)
  {
    var j := DoubleJacobian(p, x, y, 1);
    var (x3, y3) := Double(p, x, y).value;
    DoubledCoordinates(p, x, y);
    AffineTimesZ(p, j);
    TimesZ(p, j.2, 2 * y, x3, y3, j.0, j.1);
    TangentX(p, x, y, x3, j.0);
    InvertibleCong(p, j.2, 2 * y);
    TangentY(p, x, y, x3, y3, j.0, j.1);
  }

  lemma DoubledCoordinates(p: int, x: int, y: int)
    requires p > 0
    ensures var j := DoubleJacobian(p, x, y, 1);
            && Cong(p, j.0, 9 * (x * x * x * x) - 8 * (x * (y * y)))
            && Cong(p, j.1, 3 * (x * x) * (4 * (x * (y * y)) - j.0) - 8 * (y * y * (y * y)))
            && Cong(p, j.2, 2 * y)
  {
    DoubledExactly(p, x, y);
    var j := DoubleJacobian(p, x, y, 1);
    CongMod(p, 9 * (x * x * x * x) - 8 * (x * (y * y)));
    CongMod(p, 3 * (x * x) * (4 * (x * (y * y)) - j.0) - 8 * (y * y * (y * y)));
    CongMod(p, 2 * y);
  }

  lemma DoubledExactly(p: int, x: int, y: int)
    requires p > 0
    ensures var j := DoubleJacobian(p, x, y, 1);
            && j.0 == (9 * (x * x * x * x) - 8 * (x * (y * y))) % p
            && j.1 == (3 * (x * x) * (4 * (x * (y * y)) - j.0) - 8 * (y * y * (y * y))) % p
            && j.2 == (2 * y) % p
  {
    DoublingD(x, y * y);
    assert (3 * (x * x)) * (3 * (x * x)) == 9 * (x * x * x * x);
  }

  lemma DoublingD(x: int, b: int)
    ensures 2 * ((x + b) * (x + b) - x * x - b * b) == 4 * (x * b)
  {
  }

  /** The same with a z that is congruent. */
  lemma TimesZ(p: int, z: int, z': int, ax: int, ay: int, xj: int, yj: int)
    requires Cong(p, z, z') && Cong(p, z * z * ax, xj) && Cong(p, z * z * z * ay, yj)
    ensures Cong(p, z' * z' * ax, xj) && Cong(p, z' * z' * z' * ay, yj)
  {
    CongSym(p, z, z');
    CongMul(p, z', z, z', z);
    CongMul(p, z' * z', z * z, z', z);
    CongRefl(p, ax);
    CongRefl(p, ay);
    CongMul(p, z' * z', z * z, ax, ax);
    CongMul(p, z' * z' * z', z * z * z, ay, ay);
    CongTrans(p, z' * z' * ax, z * z * ax, xj);
    CongTrans(p, z' * z' * z' * ay, z * z * z * ay, yj);
  }

  lemma TangentX(p: int, x: int, y: int, x3: int, xj: int)
    requires Cong(p, (2 * y) * (2 * y) * x3, xj) && Cong(p, xj, 9 * (x * x * x * x) - 8 * (x * (y * y)))
    ensures Cong(p, 4 * y * y * (2 * x + x3), 9 * x * x * x * x)
  {
    var c := 8 * (x * (y * y));
    CongTrans(p, (2 * y) * (2 * y) * x3, xj, 9 * (x * x * x * x) - c);
    CongRefl(p, c);
    CongAdd(p, (2 * y) * (2 * y) * x3, 9 * (x * x * x * x) - c, c, c);
    assert (2 * y) * (2 * y) * x3 + c == 4 * y * y * (2 * x + x3) by { ExpandX(x, y, x3); }
    assert 9 * (x * x * x * x) == 9 * x * x * x * x;
  }

  lemma ExpandX(x: int, y: int, x3: int)
    ensures (2 * y) * (2 * y) * x3 + 8 * (x * (y * y)) == 4 * y * y * (2 * x + x3)
  {
    var v := y * y;
    assert (2 * y) * (2 * y) == 4 * v && 4 * y * y == 4 * v;
    assert 4 * v * (2 * x + x3) == 4 * v * x3 + 8 * (x * v);
  }

  lemma TangentY(p: int, x: int, y: int, x3: int, y3: int, xj: int, yj: int)
    requires Invertible(p, 2 * y)
    requires Cong(p, (2 * y) * (2 * y) * x3, xj) && Cong(p, (2 * y) * (2 * y) * (2 * y) * y3, yj)
    requires Cong(p, yj, 3 * (x * x) * (4 * (x * (y * y)) - xj) - 8 * (y * y * (y * y)))
    ensures Cong(p, 2 * y * (y + y3), 3 * x * x * (x - x3))
  {
    var m := (2 * y) * (2 * y);
    var c, e, d := 8 * (y * y * (y * y)), 3 * (x * x), 4 * (x * (y * y));
    CongTrans(p, m * (2 * y) * y3, yj, e * (d - xj) - c);
    CongRefl(p, c);
    CongAdd(p, m * (2 * y) * y3, e * (d - xj) - c, c, c);
    CongSym(p, m * x3, xj);
    CongRefl(p, d);
    CongSub(p, d, d, xj, m * x3);
    CongScale(p, e, d - xj, d - m * x3);
    CongTrans(p, m * (2 * y) * y3 + c, e * (d - xj), e * (d - m * x3));
    assert m * (2 * y) * y3 + c == m * (2 * y * (y + y3)) by { ExpandLeft(y, y3); }
    assert e * (d - m * x3) == m * (3 * x * x * (x - x3)) by { ExpandRight(x, y, x3); }
    InvertibleProduct(p, 2 * y, 2 * y);
    Cancel(p, m, 2 * y * (y + y3), 3 * x * x * (x - x3));
  }

  lemma ExpandLeft(y: int, y3: int)
    ensures (2 * y) * (2 * y) * (2 * y) * y3 + 8 * (y * y * (y * y)) == (2 * y) * (2 * y) * (2 * y * (y + y3))
  {
    var m, n := (2 * y) * (2 * y), 2 * y;
    assert m * (n * (y + y3)) == m * n * y + m * n * y3;
    assert m * n * y == 8 * (y * y * (y * y));
  }

  lemma ExpandRight(x: int, y: int, x3: int)
    ensures 3 * (x * x) * (4 * (x * (y * y)) - (2 * y) * (2 * y) * x3) == (2 * y) * (2 * y) * (3 * x * x * (x - x3))
  {
    var v, u := y * y, x * x;
    assert (2 * y) * (2 * y) == 4 * v && 3 * x * x == 3 * u;
    assert 4 * (x * v) - 4 * v * x3 == 4 * v * (x - x3);
    assert 3 * u * (4 * v * (x - x3)) == 4 * v * (3 * u * (x - x3));
  }

  /** Addition is the chord: the third point on the line through the two, reflected.  With slope
      (y2 - y1) / (x2 - x1), the two equations say where it meets the curve again. */
  lemma ChordLaw(p: int, x1: int, y1: int, x2: int, y2: int)
    requires p > 0 && Add(p, x1, y1, x2, y2).Some?
    ensures var (x3, y3) := Add(p, x1, y1, x2, y2).value;
            && Cong(p, (x2 - x1) * (y1 + y3), (y2 - y1) * (x1 - x3))
            && Cong(p, (x2 - x1) * (x2 - x1) * (x1 + x2 + x3), (y2 - y1) * (y2 - y1))
  {
    var j := AddJacobian(p, x1, y1, 1, x2, y2, 1);
    var (x3, y3) := Add(p, x1, y1, x2, y2).value;
    var h, r := x2 - x1, y2 - y1;
    AddedCoordinates(p, x1, y1, x2, y2);
    AffineTimesZ(p, j);
    TimesZ(p, j.2, 2 * h, x3, y3, j.0, j.1);
    InvertibleCong(p, j.2, 2 * h);
    InvertibleProduct(p, 2, h);
    var a := SumA(x1, h, r);
    var t := r * (x1 * (h * h) - a) - y1 * (h * h * h);
    CongTrans(p, (2 * h) * (2 * h) * x3, j.0, 4 * a);
    CongTrans(p, (2 * h) * (2 * h) * (2 * h) * y3, j.1, 8 * t);
    HalvedCoordinates(p, h, x3, y3, a, t);
    ChordX(p, x1, h, r, x3, a);
    ChordY(p, x1, y1, h, r, x3, y3, a, t);
  }

  function SumA(u: int, h: int, r: int): int { r * r - h * h * h - 2 * (u * (h * h)) }

  /** A sum in terms of the first point, the step h in x and the step r in y. */
  ghost predicate IsSum(p: int, j: (int, int, int), u: int, s: int, h: int, r: int) {
    var a := SumA(u, h, r);
    && Cong(p, j.0, 4 * a) && Cong(p, j.1, 8 * (r * (u * (h * h) - a) - s * (h * h * h)))
    && Cong(p, j.2, 2 * h)
  }

  lemma AddedCoordinates(p: int, x1: int, y1: int, x2: int, y2: int)
    requires p > 0
    ensures IsSum(p, AddJacobian(p, x1, y1, 1, x2, y2, 1), x1, y1, x2 - x1, y2 - y1)
  {
    var one := 1 % p;
    var u1, u2, s1, s2 := (x1 * one) % p, (x2 * one) % p, (y1 * one) % p, (y2 * one) % p;
    AffineSum(p, x1, y1, x2, y2);
    TimesOne(p, x1);
    TimesOne(p, x2);
    TimesOne(p, y1);
    TimesOne(p, y2);
    SumOfZ(p, 1, 1);
    SumOfReduced(p, u1, s1, u2, s2, Lift(p, Lift(p, 4 - one) - one), x1, y1, x2, y2);
  }

  lemma SumOfReduced(p: int, u1: int, s1: int, u2: int, s2: int, zz: int, x1: int, y1: int, x2: int, y2: int)
    requires p > 0 && Cong(p, u1, x1) && Cong(p, u2, x2) && Cong(p, s1, y1) && Cong(p, s2, y2) && Cong(p, zz, 2)
    ensures IsSum(p, Sum(p, u1, s1, Lift(p, u2 - u1), Lift(p, s2 - s1), zz), x1, y1, x2 - x1, y2 - y1)
  {
    LiftedDifference(p, u1, u2, x1, x2);
    LiftedDifference(p, s1, s2, y1, y2);
    SumInTerms(p, u1, s1, Lift(p, u2 - u1), Lift(p, s2 - s1), zz, x1, y1, x2 - x1, y2 - y1);
  }

  /** The formula for z1 = z2 = 1. */
  lemma AffineSum(p: int, x1: int, y1: int, x2: int, y2: int)
    requires p > 0
    ensures var one := 1 % p;
            var u1, u2, s1, s2 := (x1 * one) % p, (x2 * one) % p, (y1 * one) % p, (y2 * one) % p;
            AddJacobian(p, x1, y1, 1, x2, y2, 1)
              == Sum(p, u1, s1, Lift(p, u2 - u1), Lift(p, s2 - s1), Lift(p, Lift(p, 4 - one) - one))
  {
  }

  lemma TimesOne(p: int, x: int)
    requires p > 0
    ensures Cong(p, (x * (1 % p)) % p, x)
  {
    CongMod(p, x * (1 % p));
    CongMod(p, 1);
    CongScale(p, x, 1 % p, 1);
    CongTrans(p, (x * (1 % p)) % p, x * (1 % p), x * 1);
  }

  lemma LiftedDifference(p: int, u1: int, u2: int, x1: int, x2: int)
    requires Cong(p, u1, x1) && Cong(p, u2, x2)
    ensures Cong(p, Lift(p, u2 - u1), x2 - x1)
  {
    CongLift(p, u2 - u1);
    CongSub(p, u2, x2, u1, x1);
    CongTrans(p, Lift(p, u2 - u1), u2 - u1, x2 - x1);
  }

  /** The coordinates of a sum from congruent quantities. */
  lemma SumInTerms(p: int, u: int, s: int, h: int, r: int, zz: int, u': int, s': int, h': int, r': int)
    requires p > 0 && Cong(p, u, u') && Cong(p, s, s') && Cong(p, h, h') && Cong(p, r, r') && Cong(p, zz, 2)
    ensures IsSum(p, Sum(p, u, s, h, r, zz), u', s', h', r')
  {
    var j, a, b := Sum(p, u, s, h, r, zz), SumA(u, h, r), SumA(u', h', r');
    var t, w := r * (u * (h * h) - a) - s * (h * h * h), r' * (u' * (h' * h') - b) - s' * (h' * h' * h');
    SumCong(p, 1, u, s, h, r, zz, a, t);
    TermsCong(p, u, s, h, r, u', s', h', r');
    CongScale(p, 4, a, b);
    CongTrans(p, j.0, 4 * a, 4 * b);
    CongScale(p, 8, t, w);
    CongTrans(p, j.1, 8 * t, 8 * w);
    CongScale(p, 2, h, h');
    CongTrans(p, j.2, 2 * h, 2 * h');
  }

  lemma TermsCong(p: int, u: int, s: int, h: int, r: int, u': int, s': int, h': int, r': int)
    requires Cong(p, u, u') && Cong(p, s, s') && Cong(p, h, h') && Cong(p, r, r')
    ensures var a, b := SumA(u, h, r), SumA(u', h', r');
            && Cong(p, a, b)
            && Cong(p, r * (u * (h * h) - a) - s * (h * h * h), r' * (u' * (h' * h') - b) - s' * (h' * h' * h'))
  {
    var a, b := SumA(u, h, r), SumA(u', h', r');
    CongMul(p, h, h', h, h');
    CongMul(p, h * h, h' * h', h, h');
    CongMul(p, r, r', r, r');
    CongMul(p, u, u', h * h, h' * h');
    CongScale(p, 2, u * (h * h), u' * (h' * h'));
    CongSub(p, r * r, r' * r', h * h * h, h' * h' * h');
    CongSub(p, r * r - h * h * h, r' * r' - h' * h' * h', 2 * (u * (h * h)), 2 * (u' * (h' * h')));
    CongSub(p, u * (h * h), u' * (h' * h'), a, b);
    CongMul(p, r, r', u * (h * h) - a, u' * (h' * h') - b);
    CongMul(p, s, s', h * h * h, h' * h' * h');
    CongSub(p, r * (u * (h * h) - a), r' * (u' * (h' * h') - b), s * (h * h * h), s' * (h' * h' * h'));
  }

  /** The factors 4 and 8 go, 2 being invertible. */
  lemma HalvedCoordinates(p: int, h: int, x3: int, y3: int, a: int, t: int)
    requires Invertible(p, 2) && Cong(p, (2 * h) * (2 * h) * x3, 4 * a)
    requires Cong(p, (2 * h) * (2 * h) * (2 * h) * y3, 8 * t)
    ensures Cong(p, h * h * x3, a) && Cong(p, h * h * h * y3, t)
  {
    InvertibleProduct(p, 2, 2);
    InvertibleProduct(p, 4, 2);
    var k := h * h;
    assert (2 * h) * (2 * h) == 4 * k;
    assert 4 * k * x3 == 4 * (k * x3);
    Cancel(p, 4, k * x3, a);
    assert 4 * k * (2 * h) == 8 * (k * h);
    assert 8 * (k * h) * y3 == 8 * (k * h * y3);
    Cancel(p, 8, k * h * y3, t);
  }

  lemma ChordX(p: int, x1: int, h: int, r: int, x3: int, a: int)
    requires Cong(p, h * h * x3, a) && a == SumA(x1, h, r)
    ensures Cong(p, h * h * (x1 + (x1 + h) + x3), r * r)
  {
    var c := h * h * (x1 + (x1 + h));
    CongRefl(p, c);
    CongAdd(p, h * h * x3, a, c, c);
    assert h * h * (x1 + (x1 + h) + x3) == h * h * x3 + c;
    assert a + c == r * r by {
      assert c == 2 * (x1 * (h * h)) + h * h * h;
    }
  }

  lemma ChordY(p: int, x1: int, y1: int, h: int, r: int, x3: int, y3: int, a: int, t: int)
    requires Invertible(p, h) && Cong(p, h * h * x3, a) && Cong(p, h * h * h * y3, t)
    requires t == r * (x1 * (h * h) - a) - y1 * (h * h * h)
    ensures Cong(p, h * (y1 + y3), r * (x1 - x3))
  {
    var k, d := h * h, x1 * (h * h);
    CongRefl(p, y1 * (k * h));
    CongAdd(p, k * h * y3, t, y1 * (k * h), y1 * (k * h));
    CongSym(p, k * x3, a);
    CongRefl(p, d);
    CongSub(p, d, d, a, k * x3);
    CongScale(p, r, d - a, d - k * x3);
    CongTrans(p, k * h * y3 + y1 * (k * h), r * (d - a), r * (d - k * x3));
    assert k * h * y3 + y1 * (k * h) == k * (h * (y1 + y3)) by { Spread(k, h, y1, y3); }
    assert r * (d - k * x3) == k * (r * (x1 - x3)) by { Gather(k, r, x1, x3); }
    InvertibleProduct(p, h, h);
    Cancel(p, k, h * (y1 + y3), r * (x1 - x3));
  }

  lemma Spread(k: int, h: int, y1: int, y3: int)
    ensures k * h * y3 + y1 * (k * h) == k * (h * (y1 + y3))
  {
    assert k * (h * (y1 + y3)) == k * h * (y1 + y3);
  }

  lemma Gather(k: int, r: int, x1: int, x3: int)
    ensures r * (x1 * k - k * x3) == k * (r * (x1 - x3))
  {
    assert x1 * k - k * x3 == k * (x1 - x3);
    assert r * (k * (x1 - x3)) == k * (r * (x1 - x3));
  }

  // ----- and no other point satisfies them

  lemma SamePoint(p: int, a: int, b: int)
    requires p > 0 && Cong(p, a, b) && 0 <= a < p && 0 <= b < p
    ensures a == b
  {
    CongIsModEquality(p, a, b);
    assert a % p == a && b % p == b;
  }

  /** Two solutions of m (c + v) = w for an invertible m are the same. */
  lemma OneSolution(p: int, m: int, c: int, v: int, v': int, w: int)
    requires Invertible(p, m) && Cong(p, m * (c + v), w) && Cong(p, m * (c + v'), w)
    ensures Cong(p, v, v')
  {
    CongSym(p, m * (c + v'), w);
    CongTrans(p, m * (c + v), w, m * (c + v'));
    Cancel(p, m, c + v, c + v');
    CongRefl(p, c);
    CongSub(p, c + v, c + v', c, c);
  }

  /** The double of (x, y) is the one point with reduced coordinates that satisfies the tangent law. */
  lemma DoubleIff(p: int, x: int, y: int, a: int, b: int)
    requires p > 0 && Double(p, x, y).Some? && 0 <= a < p && 0 <= b < p
    ensures Double(p, x, y) == Some((a, b)) <==>
      && Cong(p, 2 * y * (y + b), 3 * x * x * (x - a))
      && Cong(p, 4 * y * y * (2 * x + a), 9 * x * x * x * x)
  {
    TangentLaw(p, x, y);
    var (x3, y3) := Double(p, x, y).value;
    if Cong(p, 2 * y * (y + b), 3 * x * x * (x - a)) && Cong(p, 4 * y * y * (2 * x + a), 9 * x * x * x * x) {
      DoubledCoordinates(p, x, y);
      InvertibleCong(p, DoubleJacobian(p, x, y, 1).2, 2 * y);
      InvertibleProduct(p, 2 * y, 2 * y);
      assert (2 * y) * (2 * y) == 4 * y * y;
      OnlyOne(p, 4 * y * y, 2 * x, x3, a, 9 * x * x * x * x);
      OnlyOne(p, 2 * y, y, y3, b, 3 * x * x * (x - a));
    }
  }

  /** The same for reduced solutions. */
  lemma OnlyOne(p: int, m: int, c: int, v: int, v': int, w: int)
    requires p > 0 && Invertible(p, m) && Cong(p, m * (c + v), w) && Cong(p, m * (c + v'), w)
    requires 0 <= v < p && 0 <= v' < p
    ensures v == v'
  {
    OneSolution(p, m, c, v, v', w);
    SamePoint(p, v, v');
  }

  /** The sum of two points is the one point with reduced coordinates that satisfies the chord law. */
  lemma AddIff(p: int, x1: int, y1: int, x2: int, y2: int, a: int, b: int)
    requires p > 0 && Add(p, x1, y1, x2, y2).Some? && 0 <= a < p && 0 <= b < p
    ensures Add(p, x1, y1, x2, y2) == Some((a, b)) <==>
      && Cong(p, (x2 - x1) * (y1 + b), (y2 - y1) * (x1 - a))
      && Cong(p, (x2 - x1) * (x2 - x1) * (x1 + x2 + a), (y2 - y1) * (y2 - y1))
  {
    ChordLaw(p, x1, y1, x2, y2);
    var (x3, y3) := Add(p, x1, y1, x2, y2).value;
    var h, r := x2 - x1, y2 - y1;
    if Cong(p, h * (y1 + b), r * (x1 - a)) && Cong(p, h * h * (x1 + x2 + a), r * r) {
      AddedCoordinates(p, x1, y1, x2, y2);
      InvertibleCong(p, AddJacobian(p, x1, y1, 1, x2, y2, 1).2, 2 * h);
      InvertibleProduct(p, 2, h);
      InvertibleProduct(p, h, h);
      OnlyOne(p, h * h, x1 + x2, x3, a, r * r);
      OnlyOne(p, h, y1, y3, b, r * (x1 - a));
    }
  }
}
