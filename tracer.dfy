/**
  GetColour in main.cpp: the bounded path-tracing loop and the skybox
  lookup on a miss.

  The loop is a method on the generator object, proved against TraceFrom,
  the function that says what the loop leaves behind from any iteration on:
  the colour, the generator state and how many iterations ran.
*/
module Tracer {
  import opened CMath
  import Points
  import opened Colours
  import opened Materials
  import opened Objects
  import opened Random
  import opened Shading
  import opened Wrappers

  /** SIZE_X and SIZE_Y: the image and skybox width and height. */
  const SizeX: nat := 100
  const SizeY: nat := 50

  /** GetColour's own MAX_DEPTH (the file-scope MAX_DEPTH of 10 is never read). */
  const MaxDepth: nat := 50

  /** SHADOW_ACHE: the lower bound on t, so that a bounce does not hit its own surface. */
  const ShadowAcne: real := 0.001

  /** HUGE_T, std::numeric_limits<float>::max(): (2 - 2^-23) * 2^127. */
  const HugeT: real := 340282366920938463463374607431768211456.0 - 20282409603651670423947251286016.0

  /** Ray{}: origin and direction both zero, the value sc_ray starts from. */
  const DefaultRay: Ray := Ray(Points.Zero, Points.Zero)

  /** Skybox: an mdspan of SIZE_Y rows of SIZE_X colours, indexed [y, x]. */
  datatype Skybox = Skybox(texture: seq<seq<Colour>>)

  predicate WellFormed(sky: Skybox) {
    |sky.texture| == SizeY && forall y :: 0 <= y < |sky.texture| ==> |sky.texture[y]| == SizeX
  }

  /**
    The texel a direction maps to: u from atan2 of the normalised z and x,
    v from asin of the normalised y, each scaled by extent - 1 and
    truncated. The principal ranges of atan2 and asin keep both indices
    inside the texture.
  */
  function SkyIndex(lib: Lib, direction: Points.Point): (xy: (int, int))
    requires lib.Valid()
    ensures 0 <= xy.0 < SizeX && 0 <= xy.1 < SizeY
  {
    var unit := Points.Normalize(lib, direction);
    var u := 0.5 + lib.atan2(unit.z, unit.x) / (2.0 * Pi);
    var v := 0.5 - lib.asin(unit.y) / Pi;
    UnitScaledIndex(u, SizeX - 1);
    UnitScaledIndex(v, SizeY - 1);
    (Trunc(u * (SizeX - 1) as real), Trunc(v * (SizeY - 1) as real))
  }

  /** Truncating u * m for u in [0, 1] gives an index in [0, m]. */
  lemma UnitScaledIndex(u: real, m: nat)
    requires 0.0 <= u <= 1.0
    ensures 0 <= Trunc(u * m as real) <= m
  {
    calc { 0.0; == 0.0 * m as real; <= u * m as real; }
    calc { u * m as real; <= 1.0 * m as real; }
  }

  /** The skybox texel for a direction. */
  function Background(lib: Lib, sky: Skybox, direction: Points.Point): Colour
    requires lib.Valid() && WellFormed(sky)
  {
    var (x, y) := SkyIndex(lib, direction);
    sky.texture[y][x]
  }

  /** What the loop leaves behind: the final colour, the generator state and the iterations run. */
  datatype Traced = Traced(colour: Colour, state: bv64, iterations: nat)

  /**
    The loop of GetColour(environs, skybox, r, rng) from iteration i on, with
    the current ray lray, attenuation, accumulated colour and generator
    state s. A hit adds attenuation * Emit(mat) and scatters; a successful
    scatter multiplies the attenuation and continues from the scattered
    ray, a failed one stops. A miss adds the attenuated skybox texel for the
    ORIGINAL ray r and stops. None when a unit-sphere sample ran out of
    attempts.
  */
  function TraceFrom(lib: Lib, env: seq<Primitive>, sky: Skybox, r: Ray, fuel: nat,
                     i: nat, lray: Ray, attenuation: Colour, final: Colour, s: bv64): (t: Option<Traced>)
    requires lib.Valid() && WellFormed(sky) && i <= MaxDepth
    ensures t.Some? ==> t.value.iterations <= MaxDepth - i
    ensures t.Some? && i < MaxDepth ==> t.value.iterations >= 1
    decreases MaxDepth - i
  {
    if i == MaxDepth then Some(Traced(final, s, 0))
    else
      match ClosestHit(lib, env, lray, ShadowAcne, HugeT)
      case None =>
        Some(Traced(Add(final, Mul(attenuation, Background(lib, sky, r.direction))), s, 1))
      case Some(rec) =>
        var emitted := Add(final, Mul(attenuation, Emit(rec.mat)));
        match ScatterOf(lib, lray, rec, Black, DefaultRay, s, fuel)
        case None => None
        case Some(sc) =>
          if !sc.cont then Some(Traced(emitted, sc.state, 1))
          else
            match TraceFrom(lib, env, sky, r, fuel, i + 1, sc.scattered, Mul(sc.attenuation, attenuation), emitted, sc.state)
            case None => None
            case Some(rest) => Some(Traced(rest.colour, rest.state, rest.iterations + 1))
  }

  /** GetColour: the loop from iteration 0, white attenuation and black colour. */
  function GetColourOf(lib: Lib, env: seq<Primitive>, sky: Skybox, r: Ray, s: bv64, fuel: nat): Option<Traced>
    requires lib.Valid() && WellFormed(sky)
  {
    TraceFrom(lib, env, sky, r, fuel, 0, r, White, Black, s)
  }

  /** The loop runs at least one and at most MAX_DEPTH = 50 iterations. */
  lemma IterationsBounded(lib: Lib, env: seq<Primitive>, sky: Skybox, r: Ray, s: bv64, fuel: nat)
    requires lib.Valid() && WellFormed(sky)
    requires GetColourOf(lib, env, sky, r, s, fuel).Some?
    ensures 1 <= GetColourOf(lib, env, sky, r, s, fuel).value.iterations <= MaxDepth
  {
  }

  /**
    A ray that misses every object returns exactly the skybox texel of its
    direction, in one iteration and with no draws.
  */
  lemma MissIsSky(lib: Lib, env: seq<Primitive>, sky: Skybox, r: Ray, s: bv64, fuel: nat)
    requires lib.Valid() && WellFormed(sky)
    requires forall k :: 0 <= k < |env| ==> HitObject(lib, env[k], r, ShadowAcne, HugeT).None?
    ensures GetColourOf(lib, env, sky, r, s, fuel) == Some(Traced(Background(lib, sky, r.direction), s, 1))
  {
    ClosestHitCorrect(lib, env, r, ShadowAcne, HugeT);
    MulWhite(Background(lib, sky, r.direction));
    AddBlack(Background(lib, sky, r.direction));
  }

  /**
    A ray whose closest hit is an emissive surface returns exactly that
    surface's albedo, in one iteration and with no draws.
  */
  lemma LightIsAlbedo(lib: Lib, env: seq<Primitive>, sky: Skybox, r: Ray, s: bv64, fuel: nat)
    requires lib.Valid() && WellFormed(sky)
    requires ClosestHit(lib, env, r, ShadowAcne, HugeT).Some?
    requires ClosestHit(lib, env, r, ShadowAcne, HugeT).value.mat.Emissive?
    ensures GetColourOf(lib, env, sky, r, s, fuel)
            == Some(Traced(ClosestHit(lib, env, r, ShadowAcne, HugeT).value.mat.albedo, s, 1))
  {
    var rec := ClosestHit(lib, env, r, ShadowAcne, HugeT).value;
    ScatterEmissive(lib, r, rec, Black, DefaultRay, s, fuel);
    MulWhite(rec.mat.albedo);
    AddBlack(rec.mat.albedo);
  }

  /**
    After a bounce, a miss adds the texel of the original ray's direction,
    whatever ray the loop is following: the background is looked up from r,
    not from lray.
  */
  lemma MissUsesOriginalRay(lib: Lib, env: seq<Primitive>, sky: Skybox, r: Ray, fuel: nat,
                            i: nat, lray: Ray, attenuation: Colour, final: Colour, s: bv64)
    requires lib.Valid() && WellFormed(sky) && i < MaxDepth
    requires ClosestHit(lib, env, lray, ShadowAcne, HugeT).None?
    ensures TraceFrom(lib, env, sky, r, fuel, i, lray, attenuation, final, s)
            == Some(Traced(Add(final, Mul(attenuation, Background(lib, sky, r.direction))), s, 1))
  {
  }

  /**
    A hit adds attenuation * Emit(mat) before scattering; after a successful
    scatter the attenuation becomes sc_atten * attenuation and the loop
    follows the scattered ray with the advanced generator.
  */
  lemma HitThenScatter(lib: Lib, env: seq<Primitive>, sky: Skybox, r: Ray, fuel: nat,
                       i: nat, lray: Ray, attenuation: Colour, final: Colour, s: bv64)
    requires lib.Valid() && WellFormed(sky) && i < MaxDepth
    requires ClosestHit(lib, env, lray, ShadowAcne, HugeT).Some?
    ensures var rec := ClosestHit(lib, env, lray, ShadowAcne, HugeT).value;
      var emitted := Add(final, Mul(attenuation, Emit(rec.mat)));
      var sc := ScatterOf(lib, lray, rec, Black, DefaultRay, s, fuel);
      var t := TraceFrom(lib, env, sky, r, fuel, i, lray, attenuation, final, s);
      && (sc.None? ==> t.None?)
      && (sc.Some? && !sc.value.cont ==> t == Some(Traced(emitted, sc.value.state, 1)))
      && (sc.Some? && sc.value.cont ==>
            var rest := TraceFrom(lib, env, sky, r, fuel, i + 1, sc.value.scattered,
                                  Mul(sc.value.attenuation, attenuation), emitted, sc.value.state);
            (t.None? <==> rest.None?) && (t.Some? ==> t.value.colour == rest.value.colour && t.value.state == rest.value.state))
  {
  }

  /** The sky is black everywhere. */
  predicate BlackSky(sky: Skybox) {
    forall y, x :: 0 <= y < |sky.texture| && 0 <= x < |sky.texture[y]| ==> sky.texture[y][x] == Black
  }

  /**
    Light comes only from emitters and the sky: in a scene with no emissive
    material under a black sky, every path ends with the colour it had
    accumulated (black, from GetColour's start).
  */
  lemma {:induction false} NoLightNoColour(lib: Lib, env: seq<Primitive>, sky: Skybox, r: Ray, fuel: nat,
                                           i: nat, lray: Ray, attenuation: Colour, final: Colour, s: bv64)
    requires lib.Valid() && WellFormed(sky) && i <= MaxDepth && BlackSky(sky)
    requires forall k :: 0 <= k < |env| ==> !MaterialOf(env[k]).Emissive?
    ensures var t := TraceFrom(lib, env, sky, r, fuel, i, lray, attenuation, final, s);
      t.Some? ==> t.value.colour == final
    decreases MaxDepth - i, 1
  {
    if i < MaxDepth {
      if ClosestHit(lib, env, lray, ShadowAcne, HugeT).None? {
        DarkMiss(lib, env, sky, r, fuel, i, lray, attenuation, final, s);
      } else {
        NoEmitterHit(lib, env, lray);
        NoLightAfterHit(lib, env, sky, r, fuel, i, lray, attenuation, final, s);
      }
    }
  }

  /** The hit case of NoLightNoColour: the bounce adds nothing and neither does the rest of the path. */
  lemma {:induction false} NoLightAfterHit(lib: Lib, env: seq<Primitive>, sky: Skybox, r: Ray, fuel: nat,
                                           i: nat, lray: Ray, attenuation: Colour, final: Colour, s: bv64)
    requires lib.Valid() && WellFormed(sky) && i < MaxDepth && BlackSky(sky)
    requires forall k :: 0 <= k < |env| ==> !MaterialOf(env[k]).Emissive?
    requires ClosestHit(lib, env, lray, ShadowAcne, HugeT).Some?
    requires !ClosestHit(lib, env, lray, ShadowAcne, HugeT).value.mat.Emissive?
    ensures var t := TraceFrom(lib, env, sky, r, fuel, i, lray, attenuation, final, s);
      t.Some? ==> t.value.colour == final
    decreases MaxDepth - i, 0
  {
    var cont, next, nextAttenuation, nextState := DarkHit(lib, env, sky, r, fuel, i, lray, attenuation, final, s);
    if cont {
      NoLightNoColour(lib, env, sky, r, fuel, i + 1, next, nextAttenuation, final, nextState);
    }
  }

  /** In a scene without emitters, the closest hit is never on an emitter. */
  lemma NoEmitterHit(lib: Lib, env: seq<Primitive>, lray: Ray)
    requires forall k :: 0 <= k < |env| ==> !MaterialOf(env[k]).Emissive?
    requires ClosestHit(lib, env, lray, ShadowAcne, HugeT).Some?
    ensures !ClosestHit(lib, env, lray, ShadowAcne, HugeT).value.mat.Emissive?
  {
    ClosestHitMaterial(lib, env, lray, ShadowAcne, HugeT);
  }

  /** Under a black sky a miss adds nothing. */
  lemma DarkMiss(lib: Lib, env: seq<Primitive>, sky: Skybox, r: Ray, fuel: nat,
                 i: nat, lray: Ray, attenuation: Colour, final: Colour, s: bv64)
    requires lib.Valid() && WellFormed(sky) && i < MaxDepth && BlackSky(sky)
    requires ClosestHit(lib, env, lray, ShadowAcne, HugeT).None?
    ensures TraceFrom(lib, env, sky, r, fuel, i, lray, attenuation, final, s) == Some(Traced(final, s, 1))
  {
    MissUsesOriginalRay(lib, env, sky, r, fuel, i, lray, attenuation, final, s);
    var (x, y) := SkyIndex(lib, r.direction);
    assert Background(lib, sky, r.direction) == Black;
    MulBlack(attenuation);
    AddBlack(final);
  }

  /**
    A hit on a surface that does not emit adds nothing: the path either
    stops with the colour it had or continues with it unchanged.
  */
  lemma DarkHit(lib: Lib, env: seq<Primitive>, sky: Skybox, r: Ray, fuel: nat,
                i: nat, lray: Ray, attenuation: Colour, final: Colour, s: bv64)
    returns (cont: bool, next: Ray, nextAttenuation: Colour, nextState: bv64)
    requires lib.Valid() && WellFormed(sky) && i < MaxDepth
    requires ClosestHit(lib, env, lray, ShadowAcne, HugeT).Some?
    requires !ClosestHit(lib, env, lray, ShadowAcne, HugeT).value.mat.Emissive?
    ensures var t := TraceFrom(lib, env, sky, r, fuel, i, lray, attenuation, final, s);
      && (!cont ==> t.Some? ==> t.value.colour == final)
      && (cont ==>
            var rest := TraceFrom(lib, env, sky, r, fuel, i + 1, next, nextAttenuation, final, nextState);
            (t.None? <==> rest.None?) && (t.Some? ==> t.value.colour == rest.value.colour))
  {
    var rec := ClosestHit(lib, env, lray, ShadowAcne, HugeT).value;
    assert Emit(rec.mat) == Black;
    MulBlack(attenuation);
    AddBlack(final);
    HitThenScatter(lib, env, sky, r, fuel, i, lray, attenuation, final, s);
    var sc := ScatterOf(lib, lray, rec, Black, DefaultRay, s, fuel);
    cont := sc.Some? && sc.value.cont;
    if cont {
      next, nextAttenuation, nextState := sc.value.scattered, Mul(sc.value.attenuation, attenuation), sc.value.state;
    } else {
      next, nextAttenuation, nextState := lray, attenuation, s;
    }
  }

  /**
    GetColour. `c` is None when a unit-sphere sample ran out of attempts;
    otherwise it is the colour GetColourOf gives, and rng ends in the state
    it gives.
  */
  method GetColour(lib: Lib, env: seq<Primitive>, sky: Skybox, r: Ray, rng: CompileTimeRandom, fuel: nat)
    returns (c: Option<Colour>)
    requires lib.Valid() && WellFormed(sky)
    modifies rng
    ensures var t := GetColourOf(lib, env, sky, r, old(rng.state), fuel);
      (c.None? <==> t.None?) && (t.Some? ==> c.value == t.value.colour && rng.state == t.value.state)
  {
    ghost var whole := GetColourOf(lib, env, sky, r, rng.state, fuel);
    var attenuation := White;
    var finalColour := Black;
    var lray := r;
    for i := 0 to MaxDepth
      invariant var t := TraceFrom(lib, env, sky, r, fuel, i, lray, attenuation, finalColour, rng.state);
        (t.None? <==> whole.None?) && (t.Some? ==> t.value.colour == whole.value.colour && t.value.state == whole.value.state)
    {
      var rec := HitEnvirons(lib, env, lray, ShadowAcne, HugeT);
      if rec.Some? {
        var scRay := DefaultRay;
        var scAtten := Black;
        assert Emit(rec.value.mat) == if rec.value.mat.Emissive? then rec.value.mat.albedo else Black;
        finalColour := Add(finalColour, Mul(attenuation, Emit(rec.value.mat)));
        var cont;
        cont, scAtten, scRay := Scatter(lib, lray, rec.value, rng, fuel, scAtten, scRay);
        if cont.None? {
          return None;
        }
        if cont.value {
          attenuation := Mul(scAtten, attenuation);
          lray := scRay;
        } else {
          return Some(finalColour);
        }
      } else {
        var (x, y) := SkyIndex(lib, r.direction);
        finalColour := Add(finalColour, Mul(attenuation, sky.texture[y][x]));
        return Some(finalColour);
      }
    }
    return Some(finalColour);
  }
}
