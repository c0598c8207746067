/** Integer vectors and the C++ integer operators the voxel code relies on.
    The engine stores positions in float vectors, but every value the core
    puts there is an integer small enough to be exact, so integers are used. */
module Geometry {

  /** A pair of grid coordinates (the source's Vec2). */
  datatype Vec2 = Vec2(x: int, y: int)

  /** A position or direction in chunk-local or world space. */
  datatype Vec3 = Vec3(x: int, y: int, z: int)

  function Sub(a: Vec3, b: Vec3): Vec3 {
    Vec3(a.x - b.x, a.y - b.y, a.z - b.z)
  }

  function Dot(a: Vec3, b: Vec3): int {
    a.x * b.x + a.y * b.y + a.z * b.z
  }

  /** The right-handed cross product, as glm::cross computes it. */
  function Cross(a: Vec3, b: Vec3): Vec3 {
    Vec3(a.y * b.z - a.z * b.y, a.z * b.x - a.x * b.z, a.x * b.y - a.y * b.x)
  }

  /** The cross product is perpendicular to both of its arguments. */
  lemma CrossOrthogonal(a: Vec3, b: Vec3)
    ensures Dot(Cross(a, b), a) == 0 && Dot(Cross(a, b), b) == 0
  {
    assert (a.y * b.z) * a.x == (a.x * b.z) * a.y;
    assert (a.z * b.y) * a.x == (a.x * b.y) * a.z;
    assert (a.z * b.x) * a.y == (a.y * b.x) * a.z;
    assert (a.y * b.z) * b.x == (a.y * b.x) * b.z;
    assert (a.z * b.y) * b.x == (a.z * b.x) * b.y;
    assert (a.x * b.z) * b.y == (a.x * b.y) * b.z;
  }

  function Abs(a: int): nat {
    if a < 0 then -a else a
  }

  /** C++ `a / b` on int: the quotient truncated toward zero. Its magnitude
      is |a| / |b| and its sign is the sign of a * b. */
  function CDiv(a: int, b: int): (q: int)
    requires b != 0
    ensures a >= 0 && b > 0 ==> q == a / b
    ensures (a >= 0) == (b > 0) ==> q >= 0
    ensures (a >= 0) != (b > 0) ==> q <= 0
  {
    if a >= 0 && b > 0 then a / b
    else if a >= 0 then -(a / -b)
    else if b > 0 then -(-a / b)
    else -a / -b
  }

  /** C++ `a % b` on int: the remainder takes the sign of the dividend, so that
      CDiv(a, b) * b + CRem(a, b) == a. */
  function CRem(a: int, b: int): (r: int)
    requires b != 0
    ensures a >= 0 && b > 0 ==> r == a % b
    ensures b * CDiv(a, b) + r == a
    ensures Abs(r) < Abs(b)
    ensures a >= 0 ==> r >= 0
    ensures a <= 0 ==> r <= 0
  {
    if a >= 0 && b > 0 then a % b
    else if a >= 0 then a % -b
    else if b > 0 then -(-a % b)
    else -(-a % -b)
  }

  /** The three facts CRem states fix both results: a quotient and a
      remainder with b * q + r == a, |r| < |b| and r of the dividend's sign
      are C++'s truncating quotient and remainder. */
  lemma TruncatedDivisionUnique(a: int, b: int, q: int, r: int)
    requires b != 0 && b * q + r == a && Abs(r) < Abs(b)
    requires a >= 0 ==> r >= 0
    requires a <= 0 ==> r <= 0
    ensures q == CDiv(a, b) && r == CRem(a, b)
  {
    QuotientRemainderUnique(a, b, q, r, CDiv(a, b), CRem(a, b));
  }

  lemma QuotientRemainderUnique(a: int, b: int, q: int, r: int, q': int, r': int)
    requires b != 0
    requires b * q + r == a && Abs(r) < Abs(b) && (a >= 0 ==> r >= 0) && (a <= 0 ==> r <= 0)
    requires b * q' + r' == a && Abs(r') < Abs(b) && (a >= 0 ==> r' >= 0) && (a <= 0 ==> r' <= 0)
    ensures q == q' && r == r'
  {
    var d := q - q';
    Distribute(b, q, q');
    if d != 0 {
      MulMagnitude(b, d);
      assert false;
    }
  }

  lemma Distribute(b: int, q: int, q': int)
    ensures b * (q - q') == b * q - b * q'
  {
  }

  /** A non-zero multiple of b is at least |b| in magnitude. */
  lemma MulMagnitude(b: int, k: int)
    requires k != 0
    ensures Abs(b * k) >= Abs(b)
  {
    var m: int, n: int := Abs(b), Abs(k);
    AbsProduct(b, k);
    assert m * n == m * (n - 1) + m;
    NonNegativeProduct(m, n - 1);
  }

  lemma AbsProduct(b: int, k: int)
    ensures Abs(b * k) == Abs(b) * Abs(k)
  {
    if b >= 0 && k < 0 {
      assert b * k == -(b * -k);
    } else if b < 0 && k >= 0 {
      assert b * k == -((-b) * k);
    } else if b < 0 && k < 0 {
      assert b * k == (-b) * (-k);
    }
  }

  lemma NonNegativeProduct(m: int, n: int)
    requires m >= 0 && n >= 0
    ensures m * n >= 0
  {
  }
}
