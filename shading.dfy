/**
  Shading in main.cpp: mirror reflection, refraction, Schlick's
  approximation, emission and the per-material Scatter dispatch.

  Reflect, Refract, Schlick and Emit are expressions, so they are functions.
  Scatter writes two out-parameters and advances the generator, so it is a
  method on the CompileTimeRandom object, proved against ScatterOf, the
  function of the incoming values and the generator state that says what
  it returns, what it writes and where it leaves the state.
*/
module Shading {
  import opened CMath
  import opened Points
  import Colours
  import opened Materials
  import opened Objects
  import opened Random
  import opened Wrappers

  // ---------------------------------------------------------------
  // Reflect, Refract, Schlick
  // ---------------------------------------------------------------

  /** Reflect: the direction minus twice its projection on n, as (2 * dot) * n. */
  function Reflect(rin: Ray, n: Point): Point {
    Sub(rin.direction, ScaleLeft(2.0 * Dot(rin.direction, n), n))
  }

  /**
    Over the reals, with a unit normal, reflection flips the sign of the
    component along the normal, and reflecting twice gives the direction back.
  */
  lemma ReflectFlipsNormalComponent(rin: Ray, n: Point)
    requires LengthSquared(n) == 1.0
    ensures Dot(Reflect(rin, n), n) == -Dot(rin.direction, n)
    ensures Reflect(Ray(rin.origin, Reflect(rin, n)), n) == rin.direction
  {
    var d := rin.direction;
    var k := 2.0 * Dot(d, n);
    calc {
      Dot(Reflect(rin, n), n);
      (d.x - n.x * k) * n.x + (d.y - n.y * k) * n.y + (d.z - n.z * k) * n.z;
      Dot(d, n) - k * LengthSquared(n);
      Dot(d, n) - k;
    }
  }

  /** costT2 in Refract: 1 - ni_over_dt^2 * (1 - (d . n)^2). */
  function CosT2(rin: Ray, n: Point, niOverDt: real): real {
    var rporj := Dot(rin.direction, n);
    1.0 - (niOverDt * niOverDt) * (1.0 - rporj * rporj)
  }

  /**
    Refract: the refracted direction when costT2 is positive, nothing
    otherwise (total internal reflection).
  */
  function Refract(lib: Lib, rin: Ray, n: Point, niOverDt: real): (r: Option<Point>)
    ensures r.None? <==> CosT2(rin, n, niOverDt) <= 0.0
  {
    var rporj := Dot(rin.direction, n);
    var costT2 := CosT2(rin, n, niOverDt);
    if costT2 > 0.0 then
      Some(Sub(ScaleLeft(niOverDt, Sub(rin.direction, ScaleLeft(rporj, n))), ScaleLeft(lib.sqrt(costT2), n)))
    else
      None
  }

  /**
    Over the reals, a ratio of refractive indices below 1 in magnitude (a ray
    entering the denser medium) always refracts, whatever the directions.
  */
  lemma RefractIntoDenser(lib: Lib, rin: Ray, n: Point, niOverDt: real)
    requires niOverDt * niOverDt < 1.0
    ensures Refract(lib, rin, n, niOverDt).Some?
  {
    var rporj := Dot(rin.direction, n);
    SquareNonNegative(rporj);
    SquareNonNegative(niOverDt);
    ProductBelowOne(Square(niOverDt), 1.0 - Square(rporj));
  }

  /** a * b < 1 when 0 <= a < 1 and b <= 1. */
  lemma ProductBelowOne(a: real, b: real)
    requires 0.0 <= a < 1.0 && b <= 1.0
    ensures a * b < 1.0
  {
    if b <= 0.0 {
      calc { a * b; <= 0.0 * b; == 0.0; }
    } else {
      calc { a * b; <= a * 1.0; < 1.0; }
    }
  }

  /** The reflectance at normal incidence Schlick starts from: ((1 - n) / (1 + n))^2. */
  function SchlickBase(lib: Lib, refractiveIndex: real): real {
    lib.pow(Div(lib, 1.0 - refractiveIndex, 1.0 + refractiveIndex), 2.0)
  }

  /** Schlick: res + (1 - res) * (1 - cosine)^5. */
  function Schlick(lib: Lib, cosine: real, refractiveIndex: real): real {
    var res := SchlickBase(lib, refractiveIndex);
    res + (1.0 - res) * lib.pow(1.0 - cosine, 5.0)
  }

  /**
    Schlick blends between its base reflectance and 1: whenever both powers
    it takes are in [0, 1], the probability lies between the base and 1.
  */
  lemma SchlickBetween(lib: Lib, cosine: real, refractiveIndex: real)
    requires 0.0 <= SchlickBase(lib, refractiveIndex) <= 1.0
    requires 0.0 <= lib.pow(1.0 - cosine, 5.0) <= 1.0
    ensures SchlickBase(lib, refractiveIndex) <= Schlick(lib, cosine, refractiveIndex) <= 1.0
  {
    var r := SchlickBase(lib, refractiveIndex);
    var q := lib.pow(1.0 - cosine, 5.0);
    BlendBetween(r, q);
    assert Schlick(lib, cosine, refractiveIndex) == r + (1.0 - r) * q;
  }

  /** r + (1 - r) * q lies in [r, 1] for r and q in [0, 1]. */
  lemma BlendBetween(r: real, q: real)
    requires 0.0 <= r <= 1.0 && 0.0 <= q <= 1.0
    ensures r <= r + (1.0 - r) * q <= 1.0
  {
    calc { 0.0; == (1.0 - r) * 0.0; <= (1.0 - r) * q; }
    calc { (1.0 - r) * q; <= (1.0 - r) * 1.0; }
  }

  // ---------------------------------------------------------------
  // Emit
  // ---------------------------------------------------------------

  /** Emit: an emissive material gives its albedo, every other variant black. */
  function Emit(mat: Material): Colours.Colour {
    match mat
    case Emissive(albedo) => albedo
    case _ => Colours.Black
  }

  /**
    What a hit adds to final_colour through Emit: nothing, whatever the
    attenuation, unless the material is emissive; and a light seen first,
    with the starting black sum and white attenuation, gives exactly its
    albedo.
  */
  lemma EmitAdds(mat: Material, final: Colours.Colour, attenuation: Colours.Colour)
    ensures !mat.Emissive? ==> Colours.Add(final, Colours.Mul(attenuation, Emit(mat))) == final
    ensures mat.Emissive? ==> Colours.Add(Colours.Black, Colours.Mul(Colours.White, Emit(mat))) == mat.albedo
  {
    match mat
    case Emissive(albedo) =>
      assert Emit(mat) == albedo;
      Colours.MulWhite(albedo);
      Colours.AddBlack(albedo);
    case _ =>
      assert Emit(mat) == Colours.Black;
      Colours.MulBlack(attenuation);
      Colours.AddBlack(final);
  }

  // ---------------------------------------------------------------
  // Scatter
  // ---------------------------------------------------------------

  /**
    What one Scatter call leaves behind: the returned flag, the two
    out-parameters and the generator state.
  */
  datatype Scattered = Scattered(cont: bool, attenuation: Colours.Colour, scattered: Ray, state: bv64)

  /**
    The dielectric branch's choice of normal, index ratio and cosine, by
    the side of the surface the ray arrives from.
  */
  datatype Interface = Interface(n: Point, niOverNt: real, cosine: real)

  function DielectricInterface(lib: Lib, rin: Ray, rec: HitRecord, refractiveIndex: real): Interface {
    var d := Dot(rin.direction, rec.normal);
    if d > 0.0 then
      Interface(Sub(Zero, rec.normal), refractiveIndex, Div(lib, refractiveIndex * d, Length(lib, rin.direction)))
    else
      Interface(rec.normal, Div(lib, 1.0, refractiveIndex), Div(lib, -d, Length(lib, rin.direction)))
  }

  /** reflect_prob: 1 on total internal reflection, otherwise Schlick's value. */
  function ReflectProbability(lib: Lib, rin: Ray, rec: HitRecord, refractiveIndex: real): real {
    var side := DielectricInterface(lib, rin, rec, refractiveIndex);
    match Refract(lib, rin, side.n, side.niOverNt)
    case Some(_) => Schlick(lib, side.cosine, refractiveIndex)
    case None => 1.0
  }

  /** `refracted`: the refracted direction, or Point{} when there is none. */
  function Refracted(lib: Lib, rin: Ray, rec: HitRecord, refractiveIndex: real): Point {
    var side := DielectricInterface(lib, rin, rec, refractiveIndex);
    match Refract(lib, rin, side.n, side.niOverNt)
    case Some(p) => p
    case None => Zero
  }

  /** visit_lambertian: a unit-sphere sample added to the unit normal, attenuated by the albedo. */
  function LambertianScatter(lib: Lib, rec: HitRecord, albedo: Colours.Colour, s: bv64, fuel: nat): Option<Scattered>
    requires lib.Valid()
  {
    var n := Normalize(lib, rec.normal);
    var sample := UnitSphere(lib, s, fuel);
    if sample.point.None? then None
    else Some(Scattered(true, albedo, MakeRay(lib, rec.point, Add(n, sample.point.value)), sample.state))
  }

  /**
    visit_metal: the mirror direction perturbed by fuzz times a unit-sphere
    sample; it continues when that direction leaves on the normal's side.
  */
  function MetalScatter(lib: Lib, rin: Ray, rec: HitRecord, albedo: Colours.Colour, fuzz: real, s: bv64, fuel: nat)
    : Option<Scattered>
    requires lib.Valid()
  {
    var n := Normalize(lib, rec.normal);
    var sample := UnitSphere(lib, s, fuel);
    if sample.point.None? then None
    else
      var ray := MakeRay(lib, rec.point, Add(Reflect(rin, n), ScaleLeft(fuzz, sample.point.value)));
      Some(Scattered(Dot(ray.direction, n) > 0.0, albedo, ray, sample.state))
  }

  /** visit_dielectric: one draw chooses between the reflected and the refracted ray. */
  function DielectricScatter(lib: Lib, rin: Ray, rec: HitRecord, refractiveIndex: real, s: bv64): Scattered
    requires lib.Valid()
  {
    var prob := ReflectProbability(lib, rin, rec, refractiveIndex);
    var ray :=
      if Draw(lib, s) < prob then MakeRay(lib, rec.point, Reflect(rin, rec.normal))
      else MakeRay(lib, rec.point, Refracted(lib, rin, rec, refractiveIndex));
    Scattered(true, Colours.White, ray, Xorshift(s))
  }

  /**
    Scatter on the hit `rec` of the ray `rin`, with generator state `s`, the
    out-parameters holding `attenuation` and `scattered` on entry, and `fuel`
    attempts for each unit-sphere sample. None when a sample ran out of
    attempts.
  */
  function ScatterOf(lib: Lib, rin: Ray, rec: HitRecord, attenuation: Colours.Colour, scattered: Ray, s: bv64, fuel: nat)
    : Option<Scattered>
    requires lib.Valid()
  {
    match rec.mat
    case Lambertian(albedo) => LambertianScatter(lib, rec, albedo, s, fuel)
    case Metal(albedo, fuzz) => MetalScatter(lib, rin, rec, albedo, fuzz, s, fuel)
    case Dielectric(refractiveIndex) => Some(DielectricScatter(lib, rin, rec, refractiveIndex, s))
    case Emissive(_) => Some(Scattered(false, attenuation, scattered, s))
  }

  /**
    An emissive hit stops the path: Scatter returns false, writes neither
    out-parameter and makes no draw.
  */
  lemma ScatterEmissive(lib: Lib, rin: Ray, rec: HitRecord, attenuation: Colours.Colour, scattered: Ray, s: bv64, fuel: nat)
    requires lib.Valid() && rec.mat.Emissive?
    ensures ScatterOf(lib, rin, rec, attenuation, scattered, s, fuel) == Some(Scattered(false, attenuation, scattered, s))
  {
  }

  /**
    A Lambertian hit continues with the albedo as attenuation, from the hit
    point, after one unit-sphere sample (three draws per attempt); it is
    missing only when that sample ran out of attempts.
  */
  lemma ScatterLambertian(lib: Lib, rin: Ray, rec: HitRecord, attenuation: Colours.Colour, scattered: Ray, s: bv64, fuel: nat)
    requires lib.Valid() && rec.mat.Lambertian?
    ensures var o := ScatterOf(lib, rin, rec, attenuation, scattered, s, fuel);
      var sample := UnitSphere(lib, s, fuel);
      && (o.None? <==> sample.point.None?)
      && (o.Some? ==> o.value.cont && o.value.attenuation == rec.mat.albedo)
      && (o.Some? ==> o.value.scattered.origin == rec.point && o.value.state == Advance(s, 3 * sample.attempts))
      && (o.Some? ==> o.value.scattered.direction == Normalize(lib, Add(Normalize(lib, rec.normal), sample.point.value)))
  {
  }

  /**
    A metal hit has the albedo as attenuation, and continues exactly when
    the scattered direction lies on the normal's side of the surface.
  */
  lemma ScatterMetal(lib: Lib, rin: Ray, rec: HitRecord, attenuation: Colours.Colour, scattered: Ray, s: bv64, fuel: nat)
    requires lib.Valid() && rec.mat.Metal?
    ensures var o := ScatterOf(lib, rin, rec, attenuation, scattered, s, fuel);
      var sample := UnitSphere(lib, s, fuel);
      && (o.None? <==> sample.point.None?)
      && (o.Some? ==> o.value.attenuation == rec.mat.albedo && o.value.scattered.origin == rec.point)
      && (o.Some? ==> (o.value.cont <==> Dot(o.value.scattered.direction, Normalize(lib, rec.normal)) > 0.0))
      && (o.Some? ==> o.value.state == Advance(s, 3 * sample.attempts))
      && (o.Some? ==> o.value.scattered.direction
                      == Normalize(lib, Add(Reflect(rin, Normalize(lib, rec.normal)), ScaleLeft(rec.mat.fuzz, sample.point.value))))
  {
  }

  /**
    A dielectric hit always continues, with white attenuation and exactly
    one draw. It reflects about the hit normal exactly when the draw is below
    reflect_prob, which is 1 under total internal reflection; otherwise it
    follows the refracted direction.
  */
  lemma ScatterDielectric(lib: Lib, rin: Ray, rec: HitRecord, attenuation: Colours.Colour, scattered: Ray, s: bv64, fuel: nat)
    requires lib.Valid() && rec.mat.Dielectric?
    ensures var o := ScatterOf(lib, rin, rec, attenuation, scattered, s, fuel);
      var ri := rec.mat.refractiveIndex;
      var side := DielectricInterface(lib, rin, rec, ri);
      var prob := ReflectProbability(lib, rin, rec, ri);
      && o.Some? && o.value.cont && o.value.attenuation == Colours.White
      && o.value.state == Advance(s, 1) && o.value.scattered.origin == rec.point
      && (Refract(lib, rin, side.n, side.niOverNt).None? ==> prob == 1.0)
      && (Draw(lib, s) < prob ==> o.value.scattered.direction == Normalize(lib, Reflect(rin, rec.normal)))
      && (Draw(lib, s) >= prob ==> o.value.scattered.direction == Normalize(lib, Refracted(lib, rin, rec, ri)))
  {
  }

  /**
    Under total internal reflection a draw of exactly 1 is not below
    reflect_prob, so the ray leaves along the default Point{}: its
    direction is Normalize of the zero point.
  */
  lemma TotalReflectionWithDrawOne(lib: Lib, rin: Ray, rec: HitRecord, refractiveIndex: real, s: bv64)
    requires lib.Valid() && Draw(lib, s) == 1.0
    requires var side := DielectricInterface(lib, rin, rec, refractiveIndex);
      CosT2(rin, side.n, side.niOverNt) <= 0.0
    ensures DielectricScatter(lib, rin, rec, refractiveIndex, s).scattered.direction == Normalize(lib, Zero)
  {
    var side := DielectricInterface(lib, rin, rec, refractiveIndex);
    assert Refract(lib, rin, side.n, side.niOverNt).None?;
    assert ReflectProbability(lib, rin, rec, refractiveIndex) == 1.0;
    assert Refracted(lib, rin, rec, refractiveIndex) == Zero;
  }

  /** visit_lambertian, on the generator object. `cont` is None when the sample ran out of attempts. */
  method VisitLambertian(lib: Lib, rec: HitRecord, albedo: Colours.Colour, rng: CompileTimeRandom, fuel: nat,
                         attenuation: Colours.Colour, rscattered: Ray)
    returns (cont: Option<bool>, attenuation': Colours.Colour, rscattered': Ray)
    requires lib.Valid()
    modifies rng
    ensures var o := LambertianScatter(lib, rec, albedo, old(rng.state), fuel);
      && (cont.None? <==> o.None?)
      && (o.Some? ==> cont.value == o.value.cont && attenuation' == o.value.attenuation
                      && rscattered' == o.value.scattered && rng.state == o.value.state)
  {
    var n := Normalize(lib, rec.normal);
    var p := RandomPointInUnitSphere(lib, rng, fuel);
    if p.None? {
      return None, attenuation, rscattered;
    }
    rscattered' := MakeRay(lib, rec.point, Add(n, p.value));
    attenuation' := albedo;
    cont := Some(true);
  }

  /** visit_metal, on the generator object. `cont` is None when the sample ran out of attempts. */
  method VisitMetal(lib: Lib, rin: Ray, rec: HitRecord, albedo: Colours.Colour, fuzz: real, rng: CompileTimeRandom,
                    fuel: nat, attenuation: Colours.Colour, rscattered: Ray)
    returns (cont: Option<bool>, attenuation': Colours.Colour, rscattered': Ray)
    requires lib.Valid()
    modifies rng
    ensures var o := MetalScatter(lib, rin, rec, albedo, fuzz, old(rng.state), fuel);
      && (cont.None? <==> o.None?)
      && (o.Some? ==> cont.value == o.value.cont && attenuation' == o.value.attenuation
                      && rscattered' == o.value.scattered && rng.state == o.value.state)
  {
    var n := Normalize(lib, rec.normal);
    var reflected := Reflect(rin, n);
    var p := RandomPointInUnitSphere(lib, rng, fuel);
    if p.None? {
      return None, attenuation, rscattered;
    }
    rscattered' := MakeRay(lib, rec.point, Add(reflected, ScaleLeft(fuzz, p.value)));
    attenuation' := albedo;
    cont := Some(Dot(rscattered'.direction, n) > 0.0);
  }

  /** visit_dielectric, on the generator object: it always returns true. */
  method VisitDielectric(lib: Lib, rin: Ray, rec: HitRecord, refractiveIndex: real, rng: CompileTimeRandom)
    returns (cont: bool, attenuation': Colours.Colour, rscattered': Ray)
    requires lib.Valid()
    modifies rng
    ensures var o := DielectricScatter(lib, rin, rec, refractiveIndex, old(rng.state));
      cont == o.cont && attenuation' == o.attenuation && rscattered' == o.scattered && rng.state == o.state
  {
    attenuation' := Colours.White;
    var side := DielectricInterface(lib, rin, rec, refractiveIndex);
    var refracted := Zero;
    var reflectProb := 0.0;
    var refraction := Refract(lib, rin, side.n, side.niOverNt);
    if refraction.Some? {
      refracted := refraction.value;
      reflectProb := Schlick(lib, side.cosine, refractiveIndex);
    } else {
      reflectProb := 1.0;
    }
    assert refracted == Refracted(lib, rin, rec, refractiveIndex);
    assert reflectProb == ReflectProbability(lib, rin, rec, refractiveIndex);
    var draw := rng.RandomFloat(lib);
    if draw < reflectProb {
      rscattered' := MakeRay(lib, rec.point, Reflect(rin, rec.normal));
    } else {
      rscattered' := MakeRay(lib, rec.point, refracted);
    }
    cont := true;
  }

  /**
    Scatter: dispatches on the hit's material to the four visitors, writing
    the out-parameters (returned here as attenuation' and rscattered') and
    advancing rng. `cont` is the returned flag, None when a unit-sphere
    sample ran out of attempts.
  */
  method Scatter(lib: Lib, rin: Ray, rec: HitRecord, rng: CompileTimeRandom, fuel: nat,
                 attenuation: Colours.Colour, rscattered: Ray)
    returns (cont: Option<bool>, attenuation': Colours.Colour, rscattered': Ray)
    requires lib.Valid()
    modifies rng
    ensures var o := ScatterOf(lib, rin, rec, attenuation, rscattered, old(rng.state), fuel);
      && (cont.None? <==> o.None?)
      && (o.Some? ==> cont.value == o.value.cont && attenuation' == o.value.attenuation
                      && rscattered' == o.value.scattered && rng.state == o.value.state)
  {
    match rec.mat
    case Lambertian(albedo) =>
      cont, attenuation', rscattered' := VisitLambertian(lib, rec, albedo, rng, fuel, attenuation, rscattered);
    case Metal(albedo, fuzz) =>
      cont, attenuation', rscattered' := VisitMetal(lib, rin, rec, albedo, fuzz, rng, fuel, attenuation, rscattered);
    case Dielectric(refractiveIndex) =>
      var flag;
      flag, attenuation', rscattered' := VisitDielectric(lib, rin, rec, refractiveIndex, rng);
      cont := Some(flag);
    case Emissive(_) =>
      cont, attenuation', rscattered' := Some(false), attenuation, rscattered;
  }
}
