/**
  struct Point and its friend operators. Every operator copies its left
  operand, edits the copy's fields and returns it, so each is a function
  building a new record.
*/
module Points {
  import opened CMath

  datatype Point = Point(x: real, y: real, z: real)

  /** Point{}: every field value-initialised to zero. */
  const Zero: Point := Point(0.0, 0.0, 0.0)

  /** The three coordinates, to speak about one of them at a time. */
  datatype Axis = X | Y | Z

  function Get(p: Point, k: Axis): real {
    match k
    case X => p.x
    case Y => p.y
    case Z => p.z
  }

  /** operator+(Point, Point) */
  function Add(a: Point, b: Point): Point {
    Point(a.x + b.x, a.y + b.y, a.z + b.z)
  }

  /** operator-(Point, Point) */
  function Sub(a: Point, b: Point): Point {
    Point(a.x - b.x, a.y - b.y, a.z - b.z)
  }

  /** operator*(Point, Point): the componentwise product. */
  function Mul(a: Point, b: Point): Point {
    Point(a.x * b.x, a.y * b.y, a.z * b.z)
  }

  /** operator*(Point, float) */
  function Scale(p: Point, s: real): Point {
    Point(p.x * s, p.y * s, p.z * s)
  }

  /** operator*(float, Point), written out separately in the source. */
  function ScaleLeft(s: real, p: Point): Point {
    Point(p.x * s, p.y * s, p.z * s)
  }

  /** operator/(Point, Point): the componentwise quotient. */
  function DivComponents(lib: Lib, a: Point, b: Point): Point {
    Point(Div(lib, a.x, b.x), Div(lib, a.y, b.y), Div(lib, a.z, b.z))
  }

  /** operator/(Point, float) */
  function DivScalar(lib: Lib, p: Point, s: real): Point {
    Point(Div(lib, p.x, s), Div(lib, p.y, s), Div(lib, p.z, s))
  }

  /** sum(Point) */
  function Sum(a: Point): real {
    a.x + a.y + a.z
  }

  /** DotProduct */
  function Dot(a: Point, b: Point): real {
    a.x * b.x + a.y * b.y + a.z * b.z
  }

  /** LengthSquared */
  function LengthSquared(a: Point): real {
    a.x * a.x + a.y * a.y + a.z * a.z
  }

  /** Length: sqrt of LengthSquared. */
  function Length(lib: Lib, p: Point): real {
    lib.sqrt(LengthSquared(p))
  }

  /** Normalize: the point divided by its length. */
  function Normalize(lib: Lib, p: Point): Point {
    DivScalar(lib, p, Length(lib, p))
  }

  /** CrossProduct */
  function Cross(a: Point, b: Point): Point {
    Point(a.y * b.z - a.z * b.y, a.z * b.x - a.x * b.z, a.x * b.y - a.y * b.x)
  }

  /**
    Each coordinate of +, -, componentwise * and componentwise / depends
    only on the same coordinate of the operands.
  */
  lemma ComponentsIndependent(lib: Lib, k: Axis, a: Point, b: Point, a': Point, b': Point)
    requires Get(a, k) == Get(a', k) && Get(b, k) == Get(b', k)
    ensures Get(Add(a, b), k) == Get(Add(a', b'), k)
    ensures Get(Sub(a, b), k) == Get(Sub(a', b'), k)
    ensures Get(Mul(a, b), k) == Get(Mul(a', b'), k)
    ensures Get(DivComponents(lib, a, b), k) == Get(DivComponents(lib, a', b'), k)
  {
  }

  /** p * s and s * p give the same point. */
  lemma ScaleCommutes(p: Point, s: real)
    ensures Scale(p, s) == ScaleLeft(s, p)
  {
  }

  /** Over the reals, subtraction undoes addition. */
  lemma SubUndoesAdd(a: Point, b: Point)
    ensures Sub(Add(a, b), b) == a
  {
  }

  /** Over the reals, dividing by a non-zero scalar undoes scaling by it. */
  lemma DivScalarUndoesScale(lib: Lib, p: Point, s: real)
    requires s != 0.0
    ensures DivScalar(lib, Scale(p, s), s) == p
  {
  }

  /** The dot product is symmetric (the products are the same, so also in float). */
  lemma DotSymmetric(a: Point, b: Point)
    ensures Dot(a, b) == Dot(b, a)
  {
  }

  /** LengthSquared is the dot product of a point with itself, and Length its root. */
  lemma LengthSquaredIsDot(lib: Lib, a: Point)
    ensures LengthSquared(a) == Dot(a, a)
    ensures Length(lib, a) == lib.sqrt(Dot(a, a))
  {
  }

  /** sum of the componentwise product is the dot product, term for term. */
  lemma SumOfProductIsDot(a: Point, b: Point)
    ensures Sum(Mul(a, b)) == Dot(a, b)
  {
  }

  /** The cross product is antisymmetric: swapping operands negates it as Point{} - c. */
  lemma CrossAntisymmetric(a: Point, b: Point)
    ensures Cross(a, b) == Sub(Zero, Cross(b, a))
    ensures Cross(a, a) == Zero
  {
  }

  /** Over the reals, the cross product is orthogonal to both operands. */
  lemma CrossOrthogonal(a: Point, b: Point)
    ensures Dot(Cross(a, b), a) == 0.0
    ensures Dot(Cross(a, b), b) == 0.0
  {
  }

  /** x * x, named so that its sign can be reasoned about one square at a time. */
  function Square(a: real): real { a * a }

  lemma SquarePositive(a: real)
    requires a != 0.0
    ensures Square(a) > 0.0
  {
    if a > 0.0 {
      calc { Square(a); == a * a; > 0.0 * a; == 0.0; }
    } else {
      calc { Square(a); == (-a) * (-a); > 0.0 * (-a); == 0.0; }
    }
  }

  lemma SquareNonNegative(a: real)
    ensures Square(a) >= 0.0
  {
    if a != 0.0 { SquarePositive(a); }
  }

  /** Over the reals, a non-zero point has a positive squared length. */
  lemma LengthSquaredPositive(p: Point)
    requires p != Zero
    ensures LengthSquared(p) > 0.0
  {
    SquareNonNegative(p.x); SquareNonNegative(p.y); SquareNonNegative(p.z);
    if p.x != 0.0 { SquarePositive(p.x); }
    else if p.y != 0.0 { SquarePositive(p.y); }
    else { SquarePositive(p.z); }
    calc { LengthSquared(p); == Square(p.x) + Square(p.y) + Square(p.z); > 0.0; }
  }

  /**
    Over the model's library, a non-zero point has a positive length whose
    square is the squared length.
  */
  lemma LengthPositive(lib: Lib, p: Point)
    requires lib.Valid() && p != Zero
    ensures Length(lib, p) > 0.0
    ensures Length(lib, p) * Length(lib, p) == LengthSquared(p)
  {
    LengthSquaredPositive(p);
  }

  /** Over the model's library, normalising a non-zero point gives squared length 1. */
  lemma NormalizeUnit(lib: Lib, p: Point)
    requires lib.Valid() && p != Zero
    ensures LengthSquared(Normalize(lib, p)) == 1.0
  {
    LengthPositive(lib, p);
    UnitAfterDivision(p.x, p.y, p.z, Length(lib, p));
  }

  /** Dividing three reals by the root of their sum of squares leaves sum of squares 1. */
  lemma UnitAfterDivision(x: real, y: real, z: real, l: real)
    requires l > 0.0 && l * l == x * x + y * y + z * z
    ensures (x / l) * (x / l) + (y / l) * (y / l) + (z / l) * (z / l) == 1.0
  {
    var k := 1.0 / l;
    assert l * k == 1.0;
    assert x / l == x * k && y / l == y * k && z / l == z * k;
    calc {
      (x * k) * (x * k) + (y * k) * (y * k) + (z * k) * (z * k);
      (x * x + y * y + z * z) * (k * k);
      (l * l) * (k * k);
      (l * k) * (l * k);
    }
  }

  /** Over the model's library, normalising an already normalised point changes nothing. */
  lemma NormalizeIdempotent(lib: Lib, p: Point)
    requires lib.Valid() && p != Zero
    ensures Normalize(lib, Normalize(lib, p)) == Normalize(lib, p)
  {
    NormalizeUnit(lib, p);
    var n := Normalize(lib, p);
    assert Length(lib, n) == 1.0;
  }

  /** Dividing a point by l != 0 divides its dot product with any point by l. */
  lemma DotAfterDivision(c: Point, w: Point, l: real)
    requires l != 0.0
    ensures Dot(Point(c.x / l, c.y / l, c.z / l), w) == Dot(c, w) / l
  {
    var k := 1.0 / l;
    assert c.x / l == c.x * k && c.y / l == c.y * k && c.z / l == c.z * k;
    assert Dot(c, w) / l == Dot(c, w) * k;
  }
}
