/**
  Rays, the two primitive kinds, their hit tests and the closest-hit scan
  over a scene.

  The hit tests are expressions with early returns, so they are functions
  returning an Option. Each is split into the part that does not look at
  the bounds (where the ray meets the plane, or the two roots of the
  sphere's quadratic) and the bound checks, so that the scan's invariant
  can be stated: the t an object reports never depends on the bound it is
  given, only whether it is reported.
*/
module Objects {
  import opened CMath
  import opened Points
  import opened Materials
  import opened Wrappers

  /** Ray: an origin and a normalised direction. Ray() leaves both zero. */
  datatype Ray = Ray(origin: Point, direction: Point)

  /** The Ray(origin, direction) constructor: the origin is kept and the direction normalised. */
  function MakeRay(lib: Lib, origin: Point, direction: Point): (r: Ray)
    ensures r.origin == origin
  {
    Ray(origin, Normalize(lib, direction))
  }

  /**
    Over the model's library a ray built from a non-zero direction has a unit
    direction, and building the ray again from that direction leaves it unchanged.
  */
  lemma MakeRayUnit(lib: Lib, origin: Point, direction: Point)
    requires lib.Valid() && direction != Zero
    ensures LengthSquared(MakeRay(lib, origin, direction).direction) == 1.0
    ensures MakeRay(lib, origin, MakeRay(lib, origin, direction).direction) == MakeRay(lib, origin, direction)
  {
    NormalizeUnit(lib, direction);
    NormalizeIdempotent(lib, direction);
  }

  datatype Sphere = Sphere(mat: Material, center: Point, radius: real)

  /** Rectangle: a corner, two edge vectors, and the precomputed normal and squared edge lengths. */
  datatype Rectangle = Rectangle(mat: Material, origin: Point, u: Point, v: Point,
                                 normal: Point, uLenSq: real, vLenSq: real)

  /** ObjectT: the variant over the two primitive kinds. */
  datatype Primitive = SpherePrim(sphere: Sphere) | RectanglePrim(rect: Rectangle)

  datatype HitRecord = HitRecord(mat: Material, point: Point, normal: Point, t: real)

  // ---------------------------------------------------------------
  // HitRectangle
  // ---------------------------------------------------------------

  /** The threshold below which a ray counts as parallel to a rectangle's plane. */
  const ParallelEpsilon: real := 0.000001

  /** denom: the ray direction against the rectangle's normal. */
  function Denom(rect: Rectangle, r: Ray): real {
    Dot(r.direction, rect.normal)
  }

  /**
    Where the ray meets the rectangle's plane; None when the ray is (nearly)
    parallel to it. Over the reals the point at that t lies on the plane.
  */
  function PlaneT(lib: Lib, rect: Rectangle, r: Ray): (t: Option<real>)
    ensures t.None? <==> Abs(Denom(rect, r)) < ParallelEpsilon
    ensures t.Some? ==> Dot(Sub(RayAt(r, t.value), rect.origin), rect.normal) == 0.0
  {
    var denom := Denom(rect, r);
    if Abs(denom) < ParallelEpsilon then None
    else Some(Div(lib, Dot(Sub(rect.origin, r.origin), rect.normal), denom))
  }

  /** hit_point = r.origin + t * r.direction */
  function RayAt(r: Ray, t: real): Point {
    Add(r.origin, ScaleLeft(t, r.direction))
  }

  /** Both projections of hit_vec onto the edges lie within the edges' squared lengths. */
  predicate InsideRectangle(rect: Rectangle, p: Point) {
    var hitVec := Sub(p, rect.origin);
    var uProj := Dot(hitVec, rect.u);
    var vProj := Dot(hitVec, rect.v);
    uProj >= 0.0 && uProj <= rect.uLenSq && vProj >= 0.0 && vProj <= rect.vLenSq
  }

  /**
    The normal a rectangle hit reports: the stored one when the ray runs
    against it, else its negation; either way the ray runs against the
    reported normal, by the full amount of denom.
  */
  function FacingNormal(rect: Rectangle, r: Ray): (n: Point)
    ensures n == rect.normal || n == Sub(Zero, rect.normal)
    ensures Dot(r.direction, n) == -Abs(Denom(rect, r))
  {
    if Denom(rect, r) < 0.0 then rect.normal else Sub(Zero, rect.normal)
  }

  /** HitRectangle */
  function HitRectangle(lib: Lib, rect: Rectangle, r: Ray, tmin: real, tmax: real): (h: Option<HitRecord>)
    ensures Abs(Denom(rect, r)) < ParallelEpsilon ==> h.None?
    ensures h.Some? <==>
      (PlaneT(lib, rect, r).Some? && tmin <= PlaneT(lib, rect, r).value <= tmax
       && InsideRectangle(rect, RayAt(r, PlaneT(lib, rect, r).value)))
    ensures h.Some? ==>
      && h.value.t == Div(lib, Dot(Sub(rect.origin, r.origin), rect.normal), Denom(rect, r))
      && tmin <= h.value.t <= tmax
      && h.value.point == RayAt(r, h.value.t)
      && InsideRectangle(rect, h.value.point)
      && h.value.normal == FacingNormal(rect, r)
      && Dot(r.direction, h.value.normal) <= -ParallelEpsilon
      && h.value.mat == rect.mat
  {
    match PlaneT(lib, rect, r)
    case None => None
    case Some(t) =>
      if t < tmin || t > tmax then None
      else
        var hitPoint := RayAt(r, t);
        if InsideRectangle(rect, hitPoint) then
          Some(HitRecord(rect.mat, hitPoint, FacingNormal(rect, r), t))
        else None
  }

  // ---------------------------------------------------------------
  // HitSphere
  // ---------------------------------------------------------------

  /**
    The two candidate roots, nearer formula first; None when the
    discriminant is negative. Over the model's library, for a non-zero
    direction the first root is never the farther one.
  */
  function SphereRoots(lib: Lib, s: Sphere, r: Ray): (roots: Option<(real, real)>)
    ensures lib.Valid() && r.direction != Zero && roots.Some? ==> roots.value.0 <= roots.value.1
  {
    var oc := Sub(r.origin, s.center);
    var a := Dot(r.direction, r.direction);
    var b := 2.0 * Dot(r.direction, oc);
    var c := Dot(oc, oc) - lib.pow(s.radius, 2.0);
    var disc := lib.pow(b, 2.0) - 4.0 * a * c;
    if disc >= 0.0 then
      var sqrtd := lib.sqrt(disc);
      RootsInOrder(lib, r.direction, b, disc);
      Some((Div(lib, -b - sqrtd, 2.0 * a), Div(lib, -b + sqrtd, 2.0 * a)))
    else None
  }

  /** With a = Dot(d, d) > 0 and a root of a non-negative discriminant, (-b - sqrtd) / 2a <= (-b + sqrtd) / 2a. */
  lemma RootsInOrder(lib: Lib, d: Point, b: real, disc: real)
    ensures lib.Valid() && d != Zero && disc >= 0.0 ==>
      Div(lib, -b - lib.sqrt(disc), 2.0 * Dot(d, d)) <= Div(lib, -b + lib.sqrt(disc), 2.0 * Dot(d, d))
  {
    if lib.Valid() && d != Zero && disc >= 0.0 {
      LengthSquaredPositive(d);
      QuotientOrder(-b - lib.sqrt(disc), -b + lib.sqrt(disc), 2.0 * Dot(d, d));
    }
  }

  /** Dividing by a positive number keeps the order. */
  lemma QuotientOrder(lo: real, hi: real, q: real)
    requires lo <= hi && q > 0.0
    ensures lo / q <= hi / q
  {
    assert hi / q - lo / q == (hi - lo) * (1.0 / q);
    assert 1.0 / q > 0.0;
  }

  /** The record try_hit builds for a root t. */
  function SphereHitAt(lib: Lib, s: Sphere, r: Ray, t: real): HitRecord {
    var point := Add(r.origin, Scale(r.direction, t));
    HitRecord(s.mat, point, DivScalar(lib, Sub(point, s.center), s.radius), t)
  }

  /** try_hit: a root strictly inside (tmin, tmax) is a hit. */
  function TryHit(lib: Lib, s: Sphere, r: Ray, tmin: real, tmax: real, t: real): (h: Option<HitRecord>)
    ensures h.Some? <==> tmin < t < tmax
    ensures h.Some? ==> h.value == SphereHitAt(lib, s, r, t)
  {
    if t > tmin && t < tmax then Some(SphereHitAt(lib, s, r, t)) else None
  }

  /** HitSphere: the first root if it is in range, otherwise the second. */
  function HitSphere(lib: Lib, s: Sphere, r: Ray, tmin: real, tmax: real): (h: Option<HitRecord>)
    ensures SphereRoots(lib, s, r).None? ==> h.None?
    ensures SphereRoots(lib, s, r).Some? ==>
      var (t1, t2) := SphereRoots(lib, s, r).value;
      && (h.Some? <==> (tmin < t1 < tmax || tmin < t2 < tmax))
      && (tmin < t1 < tmax ==> h == Some(SphereHitAt(lib, s, r, t1)))
      && (!(tmin < t1 < tmax) ==> h == TryHit(lib, s, r, tmin, tmax, t2))
    ensures h.Some? ==>
      && tmin < h.value.t < tmax
      && h.value.point == Add(r.origin, Scale(r.direction, h.value.t))
      && h.value.normal == DivScalar(lib, Sub(h.value.point, s.center), s.radius)
      && h.value.mat == s.mat
  {
    match SphereRoots(lib, s, r)
    case None => None
    case Some((t1, t2)) =>
      var first := TryHit(lib, s, r, tmin, tmax, t1);
      if first.Some? then first else TryHit(lib, s, r, tmin, tmax, t2)
  }

  /**
    Over the reals, a sphere's normal points away from the centre when the
    radius is positive and towards it when the radius is negative: the sign
    follows the radius.
  */
  lemma SphereNormalFollowsRadius(lib: Lib, s: Sphere, r: Ray, t: real)
    requires s.radius != 0.0
    ensures var h := SphereHitAt(lib, s, r, t);
      var d := Sub(h.point, s.center);
      && h.normal == Scale(d, 1.0 / s.radius)
      && (s.radius > 0.0 ==> Dot(h.normal, d) >= 0.0)
      && (s.radius < 0.0 ==> Dot(h.normal, d) <= 0.0)
  {
    var h := SphereHitAt(lib, s, r, t);
    var d := Sub(h.point, s.center);
    var k := 1.0 / s.radius;
    assert d.x / s.radius == d.x * k && d.y / s.radius == d.y * k && d.z / s.radius == d.z * k;
    LengthSquaredNonNegative(d);
    ScaledDot(d, k);
    if s.radius > 0.0 {
      assert k > 0.0;
      ProductSign(k, LengthSquared(d));
    } else {
      assert k < 0.0;
      ProductSign(-k, LengthSquared(d));
    }
  }

  /** The squared length is never negative. */
  lemma LengthSquaredNonNegative(p: Point)
    ensures LengthSquared(p) >= 0.0
  {
    SquareNonNegative(p.x); SquareNonNegative(p.y); SquareNonNegative(p.z);
    calc { LengthSquared(p); == Square(p.x) + Square(p.y) + Square(p.z); >= 0.0; }
  }

  lemma ScaledDot(d: Point, k: real)
    ensures Dot(Scale(d, k), d) == k * LengthSquared(d)
  {
  }

  lemma ProductSign(k: real, q: real)
    requires k > 0.0 && q >= 0.0
    ensures k * q >= 0.0 && (-k) * q <= 0.0
  {
    calc { k * q; >= 0.0 * q; == 0.0; }
    calc { (-k) * q; == -(k * q); }
  }

  // ---------------------------------------------------------------
  // One object, and how its answer depends on the bound
  // ---------------------------------------------------------------

  /** std::visit of the two hit tests over an ObjectT. */
  function HitObject(lib: Lib, o: Primitive, r: Ray, tmin: real, tmax: real): Option<HitRecord> {
    match o
    case SpherePrim(s) => HitSphere(lib, s, r, tmin, tmax)
    case RectanglePrim(rect) => HitRectangle(lib, rect, r, tmin, tmax)
  }

  /** The material an object carries. */
  function MaterialOf(o: Primitive): Material {
    match o
    case SpherePrim(s) => s.mat
    case RectanglePrim(rect) => rect.mat
  }

  /** Whether t passes the object's upper bound check: strict for spheres, inclusive for rectangles. */
  predicate UnderBound(o: Primitive, t: real, bound: real) {
    if o.SpherePrim? then t < bound else t <= bound
  }

  /** A reported hit lies at or above tmin and passes the object's own upper bound check. */
  lemma HitWithinBounds(lib: Lib, o: Primitive, r: Ray, tmin: real, bound: real)
    requires HitObject(lib, o, r, tmin, bound).Some?
    ensures tmin <= HitObject(lib, o, r, tmin, bound).value.t
    ensures UnderBound(o, HitObject(lib, o, r, tmin, bound).value.t, bound)
  {
  }

  /**
    The t of a hit does not depend on the bound: lowering the bound keeps
    every hit that still passes it unchanged, and an object that misses
    under a bound misses under every lower bound.
  */
  lemma HitNarrow(lib: Lib, o: Primitive, r: Ray, tmin: real, bound: real, lower: real)
    requires lower <= bound
    ensures HitObject(lib, o, r, tmin, bound).None? ==> HitObject(lib, o, r, tmin, lower).None?
    ensures HitObject(lib, o, r, tmin, bound).Some? && UnderBound(o, HitObject(lib, o, r, tmin, bound).value.t, lower)
            ==> HitObject(lib, o, r, tmin, lower) == HitObject(lib, o, r, tmin, bound)
  {
    match o
    case SpherePrim(s) => {
      match SphereRoots(lib, s, r)
      case None =>
      case Some((t1, t2)) =>
    }
    case RectanglePrim(rect) =>
  }

  // ---------------------------------------------------------------
  // HitEnvirons: the closest-hit scan
  // ---------------------------------------------------------------

  /** The loop's two variables: the current bound `closest` and the result so far. */
  datatype ScanState = ScanState(closest: real, res: Option<HitRecord>)

  /** One loop iteration: an object hit under the current bound becomes the result and the new bound. */
  function Step(lib: Lib, r: Ray, tmin: real, st: ScanState, o: Primitive): ScanState {
    match HitObject(lib, o, r, tmin, st.closest)
    case Some(h) => ScanState(h.t, Some(h))
    case None => st
  }

  /** The loop's state after visiting the objects in order, starting from (tmax, nullopt). */
  function Scan(lib: Lib, objects: seq<Primitive>, r: Ray, tmin: real, tmax: real): ScanState
    decreases |objects|
  {
    if objects == [] then ScanState(tmax, None)
    else Step(lib, r, tmin, Scan(lib, objects[..|objects| - 1], r, tmin, tmax), objects[|objects| - 1])
  }

  /** The hit HitEnvirons returns. */
  function ClosestHit(lib: Lib, objects: seq<Primitive>, r: Ray, tmin: real, tmax: real): Option<HitRecord> {
    Scan(lib, objects, r, tmin, tmax).res
  }

  /** The shape of the loop state: the bound is tmax until the first hit, then the result's t. */
  ghost predicate ScanShape(lib: Lib, objects: seq<Primitive>, r: Ray, tmin: real, tmax: real, st: ScanState) {
    && st.closest <= tmax
    && (st.res.None? ==> st.closest == tmax)
    && (st.res.Some? ==> st.closest == st.res.value.t)
    && (st.res.None? <==> forall i :: 0 <= i < |objects| ==> HitObject(lib, objects[i], r, tmin, tmax).None?)
  }

  /** No object visited so far reports, on its own under tmax, a t below the current bound. */
  ghost predicate ScanClosest(lib: Lib, objects: seq<Primitive>, r: Ray, tmin: real, tmax: real, st: ScanState) {
    forall i :: 0 <= i < |objects| && HitObject(lib, objects[i], r, tmin, tmax).Some? ==>
      st.closest <= HitObject(lib, objects[i], r, tmin, tmax).value.t
  }

  /** The result, when there is one, was reported by one of the objects visited. */
  ghost predicate ScanFound(lib: Lib, objects: seq<Primitive>, r: Ray, tmin: real, tmax: real, st: ScanState) {
    st.res.Some? ==> exists i :: 0 <= i < |objects| && Found(lib, objects, r, tmin, tmax, i, st.res.value)
  }

  /** Object i reported h when visited with the bound the scan had reached just before it. */
  ghost predicate Found(lib: Lib, objects: seq<Primitive>, r: Ray, tmin: real, tmax: real, i: nat, h: HitRecord)
    requires i < |objects|
  {
    var before := Scan(lib, objects[..i], r, tmin, tmax).closest;
    before <= tmax && HitObject(lib, objects[i], r, tmin, before) == Some(h)
  }

  /** Found for a prefix is Found for the whole sequence. */
  lemma FoundInPrefix(lib: Lib, objects: seq<Primitive>, n: nat, r: Ray, tmin: real, tmax: real, i: nat, h: HitRecord)
    requires i < n <= |objects| && Found(lib, objects[..n], r, tmin, tmax, i, h)
    ensures Found(lib, objects, r, tmin, tmax, i, h)
  {
    assert objects[..n][..i] == objects[..i];
  }

  /** An object whose hit was found under some bound also hits on its own under tmax. */
  lemma FoundHitsUnderMax(lib: Lib, objects: seq<Primitive>, r: Ray, tmin: real, tmax: real, i: nat, h: HitRecord)
    requires i < |objects| && Found(lib, objects, r, tmin, tmax, i, h)
    ensures HitObject(lib, objects[i], r, tmin, tmax).Some?
  {
    HitNarrow(lib, objects[i], r, tmin, tmax, Scan(lib, objects[..i], r, tmin, tmax).closest);
  }

  /** The last object of a non-empty sequence, visited with the state the rest left. */
  lemma ScanLast(lib: Lib, objects: seq<Primitive>, r: Ray, tmin: real, tmax: real)
    requires objects != []
    ensures var n := |objects| - 1;
      Scan(lib, objects, r, tmin, tmax) == Step(lib, r, tmin, Scan(lib, objects[..n], r, tmin, tmax), objects[n])
  {
  }

  lemma StepKeepsShape(lib: Lib, objects: seq<Primitive>, r: Ray, tmin: real, tmax: real)
    requires objects != []
    requires var init := objects[..|objects| - 1];
      ScanShape(lib, init, r, tmin, tmax, Scan(lib, init, r, tmin, tmax))
      && ScanFound(lib, init, r, tmin, tmax, Scan(lib, init, r, tmin, tmax))
    ensures ScanShape(lib, objects, r, tmin, tmax, Scan(lib, objects, r, tmin, tmax))
  {
    var n := |objects| - 1;
    var init, o := objects[..n], objects[n];
    var st := Scan(lib, init, r, tmin, tmax);
    ScanLast(lib, objects, r, tmin, tmax);
    assert forall i :: 0 <= i < n ==> objects[i] == init[i];
    HitNarrow(lib, o, r, tmin, tmax, st.closest);
    if HitObject(lib, o, r, tmin, st.closest).Some? {
      HitWithinBounds(lib, o, r, tmin, st.closest);
    }
    if st.res.Some? {
      var i :| 0 <= i < n && Found(lib, init, r, tmin, tmax, i, st.res.value);
      FoundHitsUnderMax(lib, init, r, tmin, tmax, i, st.res.value);
    }
  }

  lemma StepKeepsClosest(lib: Lib, objects: seq<Primitive>, r: Ray, tmin: real, tmax: real)
    requires objects != []
    requires var init := objects[..|objects| - 1];
      ScanShape(lib, init, r, tmin, tmax, Scan(lib, init, r, tmin, tmax))
      && ScanClosest(lib, init, r, tmin, tmax, Scan(lib, init, r, tmin, tmax))
    ensures ScanClosest(lib, objects, r, tmin, tmax, Scan(lib, objects, r, tmin, tmax))
  {
    var n := |objects| - 1;
    var init, o := objects[..n], objects[n];
    var st := Scan(lib, init, r, tmin, tmax);
    ScanLast(lib, objects, r, tmin, tmax);
    assert forall i :: 0 <= i < n ==> objects[i] == init[i];
    HitNarrow(lib, o, r, tmin, tmax, st.closest);
    if HitObject(lib, o, r, tmin, st.closest).Some? {
      HitWithinBounds(lib, o, r, tmin, st.closest);
    }
  }

  lemma StepKeepsFound(lib: Lib, objects: seq<Primitive>, r: Ray, tmin: real, tmax: real)
    requires objects != []
    requires var init := objects[..|objects| - 1];
      ScanShape(lib, init, r, tmin, tmax, Scan(lib, init, r, tmin, tmax))
      && ScanFound(lib, init, r, tmin, tmax, Scan(lib, init, r, tmin, tmax))
    ensures ScanFound(lib, objects, r, tmin, tmax, Scan(lib, objects, r, tmin, tmax))
  {
    var n := |objects| - 1;
    var init, o := objects[..n], objects[n];
    var st := Scan(lib, init, r, tmin, tmax);
    ScanLast(lib, objects, r, tmin, tmax);
    var hit := HitObject(lib, o, r, tmin, st.closest);
    if hit.Some? {
      assert Found(lib, objects, r, tmin, tmax, n, hit.value);
    } else if st.res.Some? {
      var i :| 0 <= i < n && Found(lib, init, r, tmin, tmax, i, st.res.value);
      FoundInPrefix(lib, objects, n, r, tmin, tmax, i, st.res.value);
    }
  }

  /** The three parts of the loop invariant hold after every prefix of the objects. */
  lemma {:induction false} ScanKeepsInvariant(lib: Lib, objects: seq<Primitive>, r: Ray, tmin: real, tmax: real)
    ensures var st := Scan(lib, objects, r, tmin, tmax);
      && ScanShape(lib, objects, r, tmin, tmax, st)
      && ScanClosest(lib, objects, r, tmin, tmax, st)
      && ScanFound(lib, objects, r, tmin, tmax, st)
    decreases |objects|
  {
    if objects != [] {
      ScanKeepsInvariant(lib, objects[..|objects| - 1], r, tmin, tmax);
      StepKeepsShape(lib, objects, r, tmin, tmax);
      StepKeepsClosest(lib, objects, r, tmin, tmax);
      StepKeepsFound(lib, objects, r, tmin, tmax);
    }
  }

  /**
    HitEnvirons' promise. The result is none exactly when every object
    misses under tmax; otherwise its t is at most the t every object
    reports on its own under tmax, and it is what some object reported
    under the bound the scan had reached when that object was visited.
  */
  lemma ClosestHitCorrect(lib: Lib, objects: seq<Primitive>, r: Ray, tmin: real, tmax: real)
    ensures var res := ClosestHit(lib, objects, r, tmin, tmax);
      && (res.None? <==> forall i :: 0 <= i < |objects| ==> HitObject(lib, objects[i], r, tmin, tmax).None?)
      && (res.Some? ==> res.value.t <= tmax)
      && (res.Some? ==> forall i :: 0 <= i < |objects| && HitObject(lib, objects[i], r, tmin, tmax).Some? ==>
            res.value.t <= HitObject(lib, objects[i], r, tmin, tmax).value.t)
      && (res.Some? ==> exists i :: 0 <= i < |objects| && Found(lib, objects, r, tmin, tmax, i, res.value))
  {
    ScanKeepsInvariant(lib, objects, r, tmin, tmax);
  }

  /** The closest hit carries, unchanged, the material of one of the objects. */
  lemma ClosestHitMaterial(lib: Lib, objects: seq<Primitive>, r: Ray, tmin: real, tmax: real)
    requires ClosestHit(lib, objects, r, tmin, tmax).Some?
    ensures exists i :: 0 <= i < |objects| && ClosestHit(lib, objects, r, tmin, tmax).value.mat == MaterialOf(objects[i])
  {
    ClosestHitCorrect(lib, objects, r, tmin, tmax);
    var h := ClosestHit(lib, objects, r, tmin, tmax).value;
    var i :| 0 <= i < |objects| && Found(lib, objects, r, tmin, tmax, i, h);
    var before := Scan(lib, objects[..i], r, tmin, tmax).closest;
    assert HitObject(lib, objects[i], r, tmin, before) == Some(h);
  }

  /**
    Ties: a rectangle visited after the current result, reporting exactly the
    current closest t, replaces it (its bound check is inclusive); a sphere
    never reports that t (its check is strict), so the result then stays
    or moves strictly closer.
  */
  lemma TieBreak(lib: Lib, objects: seq<Primitive>, o: Primitive, r: Ray, tmin: real, tmax: real)
    requires ClosestHit(lib, objects, r, tmin, tmax).Some?
    ensures var h := ClosestHit(lib, objects, r, tmin, tmax).value;
      var after := HitObject(lib, o, r, tmin, tmax);
      var next := ClosestHit(lib, objects + [o], r, tmin, tmax);
      && (o.RectanglePrim? && after.Some? && after.value.t == h.t ==> next == after)
      && (o.SpherePrim? ==> next == Some(h) || next.value.t < h.t)
  {
    var st := Scan(lib, objects, r, tmin, tmax);
    var whole := objects + [o];
    assert whole[..|whole| - 1] == objects;
    ScanKeepsInvariant(lib, objects, r, tmin, tmax);
    HitNarrow(lib, o, r, tmin, tmax, st.closest);
    if HitObject(lib, o, r, tmin, st.closest).Some? {
      HitWithinBounds(lib, o, r, tmin, st.closest);
    }
  }

  /** HitEnvirons: the loop over the objects, shrinking `closest` at every hit. */
  method HitEnvirons(lib: Lib, objects: seq<Primitive>, r: Ray, tmin: real, tmax: real) returns (res: Option<HitRecord>)
    ensures res == ClosestHit(lib, objects, r, tmin, tmax)
    ensures res.None? <==> forall i :: 0 <= i < |objects| ==> HitObject(lib, objects[i], r, tmin, tmax).None?
    ensures res.Some? ==> forall i :: 0 <= i < |objects| && HitObject(lib, objects[i], r, tmin, tmax).Some? ==>
              res.value.t <= HitObject(lib, objects[i], r, tmin, tmax).value.t
  {
    var closest := tmax;
    res := None;
    var i := 0;
    assert objects[..0] == [];
    while i < |objects|
      invariant 0 <= i <= |objects|
      invariant ScanState(closest, res) == Scan(lib, objects[..i], r, tmin, tmax)
    {
      assert objects[..i + 1][..i] == objects[..i];
      var hit := HitObject(lib, objects[i], r, tmin, closest);
      if hit.Some? {
        closest := hit.value.t;
        res := hit;
      }
      i := i + 1;
    }
    assert objects[..i] == objects;
    ClosestHitCorrect(lib, objects, r, tmin, tmax);
  }
}
