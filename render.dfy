/**
  Render in main.cpp, with the scene helper CreateRectangle and the channel
  quantiser of the PPM writer.

  Render threads one generator, seeded from the time string, through
  every sample of every pixel in order: for i over the columns, j over
  the rows, twenty samples each, two draws for the camera ray before each
  trace. It is a method over an array2 proved against Before and
  ColourAt: Before gives the generator state on entry to each pixel (or
  None once a sample has failed), ColourAt the colour that pixel gets.
  Both are stated over a sampler, a function from a pixel and a state to
  that pixel's shade, which the contracts pin to PixelOf pointwise.
*/
module Renderer {
  import opened CMath
  import opened Points
  import C = Colours
  import opened Materials
  import opened Objects
  import opened Random
  import opened Tracer
  import opened Wrappers

  /** NUMBER_OF_RAYS_PER_PIXEL */
  const RaysPerPixel: nat := 20

  /** Camera: the lower left corner of the viewport, its two spans and the eye. */
  datatype Camera = Camera(lowerLeftCorner: Point, horizontal: Point, vertical: Point, origin: Point)

  /**
    The camera ray of pixel (i, j) for the two draws fu and fv:
    u = (i + fu) / nx and v = (j + fv) / ny, aimed at
    lowerleftCorner + u * horizontal + v * vertical - origin.
  */
  function CameraRay(lib: Lib, cam: Camera, i: nat, j: nat, fu: real, fv: real): Ray {
    var u := (i as real + fu) / SizeX as real;
    var v := (j as real + fv) / SizeY as real;
    MakeRay(lib, cam.origin,
            Sub(Add(Add(cam.lowerLeftCorner, ScaleLeft(u, cam.horizontal)), ScaleLeft(v, cam.vertical)), cam.origin))
  }

  /** A colour together with the generator state after computing it. */
  datatype Shade = Shade(colour: C.Colour, state: bv64)

  /**
    The sample loop of pixel (i, j) from sample k on, with the running sum
    `sum` and generator state s: each sample draws u then v, traces the
    camera ray with the state two steps on, and adds the result.
  */
  function SamplesFrom(lib: Lib, env: seq<Primitive>, sky: Skybox, cam: Camera, fuel: nat,
                       i: nat, j: nat, k: nat, sum: C.Colour, s: bv64): Option<Shade>
    requires lib.Valid() && WellFormed(sky) && k <= RaysPerPixel
    decreases RaysPerPixel - k
  {
    if k == RaysPerPixel then Some(Shade(sum, s))
    else
      var ray := CameraRay(lib, cam, i, j, Draw(lib, s), Draw(lib, Xorshift(s)));
      match GetColourOf(lib, env, sky, ray, Xorshift(Xorshift(s)), fuel)
      case None => None
      case Some(t) => SamplesFrom(lib, env, sky, cam, fuel, i, j, k + 1, C.Add(sum, t.colour), t.state)
  }

  /** Pixel (i, j) from state s: the sum of the twenty samples divided by twenty. */
  function PixelOf(lib: Lib, env: seq<Primitive>, sky: Skybox, cam: Camera, fuel: nat,
                   i: nat, j: nat, s: bv64): Option<Shade>
    requires lib.Valid() && WellFormed(sky)
  {
    match SamplesFrom(lib, env, sky, cam, fuel, i, j, 0, C.Black, s)
    case None => None
    case Some(total) => Some(Shade(C.DivScalar(lib, total.colour, RaysPerPixel as real), total.state))
  }

  /**
    A sampler: pixel (i, j) computed from generator state s, with the state
    after it. Render's order of pixels is stated over any sampler; the one
    Render uses is PixelOf, and Samples says a sampler is that one.
  */
  type Sampler = (nat, nat, bv64) -> Option<Shade>

  /** The sampler agrees with PixelOf for the given library, scene, sky, camera and fuel. */
  ghost predicate Samples(pixel: Sampler, lib: Lib, env: seq<Primitive>, sky: Skybox, cam: Camera, fuel: nat)
    requires lib.Valid() && WellFormed(sky)
  {
    forall i: nat, j: nat, s: bv64 {:trigger PixelOf(lib, env, sky, cam, fuel, i, j, s)} ::
      pixel(i, j, s) == PixelOf(lib, env, sky, cam, fuel, i, j, s)
  }

  /** PixelOf as a sampler. */
  function SamplerOf(lib: Lib, env: seq<Primitive>, sky: Skybox, cam: Camera, fuel: nat): (pixel: Sampler)
    requires lib.Valid() && WellFormed(sky)
    ensures Samples(pixel, lib, env, sky, cam, fuel)
  {
    (i: nat, j: nat, s: bv64) => PixelOf(lib, env, sky, cam, fuel, i, j, s)
  }

  /**
    The generator state in front of pixel (i, j) when Render starts from
    `seed`: Render visits column 0 from row 0 to SIZE_Y - 1, then column 1,
    and so on, each pixel continuing from the state the previous one left.
    (i, SIZE_Y) stands for the end of column i, which is where column i + 1
    starts, and (SIZE_X, 0) for the end of the picture. None once a pixel
    on the way is missing.
  */
  function Before(pixel: Sampler, i: nat, j: nat, seed: bv64): Option<bv64>
    decreases i, j
  {
    if j > 0 then After(pixel, i, j - 1, Before(pixel, i, j - 1, seed))
    else if i > 0 then Before(pixel, i - 1, SizeY, seed)
    else Some(seed)
  }

  /** The state after pixel (i, j) when it starts from `state`. */
  function After(pixel: Sampler, i: nat, j: nat, state: Option<bv64>): Option<bv64> {
    match state
    case None => None
    case Some(t) =>
      match pixel(i, j, t)
      case None => None
      case Some(px) => Some(px.state)
  }

  /** Pixel (i, j) of the picture Render computes from `seed`. */
  function ColourAt(pixel: Sampler, i: nat, j: nat, seed: bv64): Option<C.Colour> {
    match Before(pixel, i, j, seed)
    case None => None
    case Some(t) =>
      match pixel(i, j, t)
      case None => None
      case Some(px) => Some(px.colour)
  }

  /** Position (i, j) comes no later than (i', j') in Render's order. */
  predicate NoLater(i: nat, j: nat, i': nat, j': nat) {
    i < i' || (i == i' && j <= j')
  }

  /**
    Once a pixel is missing, every later position is: Render stops at the
    first sample that runs out of attempts.
  */
  lemma {:induction false} MissingStays(pixel: Sampler, i: nat, j: nat, i': nat, j': nat, seed: bv64)
    requires j <= SizeY && NoLater(i, j, i', j') && Before(pixel, i, j, seed).None?
    ensures Before(pixel, i', j', seed).None?
    decreases i', j'
  {
    if i' == i && j' == j {
    } else if j' > 0 {
      MissingStays(pixel, i, j, i', j' - 1, seed);
    } else {
      MissingStays(pixel, i, j, i' - 1, SizeY, seed);
    }
  }

  /**
    A pixel is present exactly when the position after it is reached: the
    colour of (i, j) is there iff (i, j + 1) has a state.
  */
  lemma ColourPresent(pixel: Sampler, i: nat, j: nat, seed: bv64)
    ensures ColourAt(pixel, i, j, seed).Some? <==> Before(pixel, i, j + 1, seed).Some?
  {
    assert Before(pixel, i, j + 1, seed) == After(pixel, i, j, Before(pixel, i, j, seed));
  }

  /**
    The picture depends on the time string only through its digits: the
    seed is the same, and so is every pixel.
  */
  lemma ImageOfTime(pixel: Sampler, timeStr: string)
    ensures SeedState(Digits(timeStr)) == SeedState(timeStr)
    ensures forall i: nat, j: nat :: ColourAt(pixel, i, j, SeedState(Digits(timeStr))) == ColourAt(pixel, i, j, SeedState(timeStr))
  {
    SeedIgnoresNonDigits(timeStr);
  }

  /** The generator state CreateSeed gives for a time string. */
  function SeedState(timeStr: string): bv64 {
    SeedOf(timeStr) as bv64
  }

  /**
    A build at midnight: "00:00:00" seeds the generator with 0, the fixed
    point of xorshift, so no unit-sphere sample from it is ever accepted
    and the original's do-while loop never ends.
  */
  lemma MidnightNeverSamples(lib: Lib, fuel: nat)
    requires lib.Valid()
    ensures SeedState("00:00:00") == 0
    ensures UnitSphere(lib, SeedState("00:00:00"), fuel).point.None?
  {
    ClockSeed("00:00:00");
    ZeroStateNeverSamples(lib, fuel);
  }

  /** Every channel of the colour equals the same channel of c: sky of a single colour. */
  predicate UniformSky(sky: Skybox, c: C.Colour) {
    forall y, x :: 0 <= y < |sky.texture| && 0 <= x < |sky.texture[y]| ==> sky.texture[y][x] == c
  }

  /**
    With no objects every sample is the sky texel of its ray and makes no
    draw beyond the two for the camera ray: under a uniform sky the n
    remaining samples add n copies of its colour.
  */
  lemma {:induction false} EmptySceneSamples(lib: Lib, sky: Skybox, cam: Camera, fuel: nat, c: C.Colour,
                                             i: nat, j: nat, k: nat, n: nat, s: bv64)
    requires lib.Valid() && WellFormed(sky) && UniformSky(sky, c) && k + n == RaysPerPixel
    ensures SamplesFrom(lib, [], sky, cam, fuel, i, j, k, C.Scale(c, k as real), s).Some?
    ensures SamplesFrom(lib, [], sky, cam, fuel, i, j, k, C.Scale(c, k as real), s).value.colour
            == C.Scale(c, RaysPerPixel as real)
    ensures SamplesFrom(lib, [], sky, cam, fuel, i, j, k, C.Scale(c, k as real), s).value.state == Advance(s, 2 * n)
    decreases n
  {
    if n > 0 {
      var ray := CameraRay(lib, cam, i, j, Draw(lib, s), Draw(lib, Xorshift(s)));
      var s2 := Xorshift(Xorshift(s));
      EmptySceneRay(lib, sky, c, ray, s2, fuel);
      ScaleStep(c, k);
      EmptySceneSamples(lib, sky, cam, fuel, c, i, j, k + 1, n - 1, s2);
      AdvanceTwo(s, 2 * (n - 1));
    } else {
      assert Advance(s, 0) == s;
    }
  }

  /** With no objects under a uniform sky, any ray is that colour and makes no draw. */
  lemma EmptySceneRay(lib: Lib, sky: Skybox, c: C.Colour, r: Ray, s: bv64, fuel: nat)
    requires lib.Valid() && WellFormed(sky) && UniformSky(sky, c)
    ensures GetColourOf(lib, [], sky, r, s, fuel) == Some(Traced(c, s, 1))
  {
    MissIsSky(lib, [], sky, r, s, fuel);
    var (x, y) := SkyIndex(lib, r.direction);
    assert Background(lib, sky, r.direction) == c;
  }

  /** k copies of a colour and one more are k + 1 copies. */
  lemma ScaleStep(c: C.Colour, k: nat)
    ensures C.Add(C.Scale(c, k as real), c) == C.Scale(c, (k + 1) as real)
  {
    var x := k as real;
    assert c.r * x + c.r == c.r * (x + 1.0);
    assert c.g * x + c.g == c.g * (x + 1.0);
    assert c.b * x + c.b == c.b * (x + 1.0);
  }

  /** Two steps, then n more, are n + 2 steps. */
  lemma AdvanceTwo(s: bv64, n: nat)
    ensures Advance(Xorshift(Xorshift(s)), n) == Advance(s, n + 2)
  {
    assert Advance(s, n + 2) == Advance(Xorshift(s), n + 1);
  }

  /**
    Over the reals, with no objects under a uniform sky every pixel is
    exactly the sky colour: each of the twenty samples is, and so is their
    average; the pixel makes forty draws.
  */
  lemma EmptyScenePixel(lib: Lib, sky: Skybox, cam: Camera, fuel: nat, c: C.Colour, i: nat, j: nat, s: bv64)
    requires lib.Valid() && WellFormed(sky) && UniformSky(sky, c)
    ensures PixelOf(lib, [], sky, cam, fuel, i, j, s).Some?
    ensures PixelOf(lib, [], sky, cam, fuel, i, j, s).value.colour == c
    ensures PixelOf(lib, [], sky, cam, fuel, i, j, s).value.state == Advance(s, 2 * RaysPerPixel)
  {
    ScaleZero(c);
    EmptySceneSamples(lib, sky, cam, fuel, c, i, j, 0, RaysPerPixel, s);
    var total := SamplesFrom(lib, [], sky, cam, fuel, i, j, 0, C.Black, s).value;
    C.DivScalarChannels(lib, c, RaysPerPixel as real, C.R);
    assert PixelOf(lib, [], sky, cam, fuel, i, j, s) == Some(Shade(C.DivScalar(lib, total.colour, RaysPerPixel as real), total.state));
  }

  /** No copies of a colour are black. */
  lemma ScaleZero(c: C.Colour)
    ensures C.Scale(c, 0 as real) == C.Black
  {
  }

  /**
    A sampler whose every pixel is present and of colour c reaches every
    position, and every pixel of its picture is c.
  */
  lemma {:induction false} ConstantPicture(pixel: Sampler, c: C.Colour, i: nat, j: nat, seed: bv64)
    requires forall i': nat, j': nat, s': bv64 :: pixel(i', j', s').Some? && pixel(i', j', s').value.colour == c
    ensures Before(pixel, i, j, seed).Some?
    ensures ColourAt(pixel, i, j, seed) == Some(c)
    decreases i, j
  {
    if j > 0 {
      ConstantPicture(pixel, c, i, j - 1, seed);
    } else if i > 0 {
      ConstantPicture(pixel, c, i - 1, SizeY, seed);
    }
  }

  /**
    The whole picture of an empty scene under a uniform sky is that
    colour, whatever the seed, and Render reaches its end.
  */
  lemma EmptySceneIsSky(pixel: Sampler, lib: Lib, sky: Skybox, cam: Camera, fuel: nat, c: C.Colour, seed: bv64)
    requires lib.Valid() && WellFormed(sky) && UniformSky(sky, c) && Samples(pixel, lib, [], sky, cam, fuel)
    ensures Before(pixel, SizeX, 0, seed).Some?
    ensures forall i: nat, j: nat :: ColourAt(pixel, i, j, seed) == Some(c)
  {
    forall i: nat, j: nat, s: bv64 ensures pixel(i, j, s).Some? && pixel(i, j, s).value.colour == c {
      EmptyScenePixel(lib, sky, cam, fuel, c, i, j, s);
    }
    ConstantPicture(pixel, c, SizeX, 0, seed);
    forall i: nat, j: nat ensures ColourAt(pixel, i, j, seed) == Some(c) {
      ConstantPicture(pixel, c, i, j, seed);
    }
  }

  /**
    The twenty-sample loop of Render for pixel (i, j), on the generator
    object: pixel (i, j) of the sampler PixelOf. None when a unit-sphere
    sample ran out of attempts.
  */
  method SamplePixel(lib: Lib, env: seq<Primitive>, sky: Skybox, cam: Camera, i: nat, j: nat,
                     rng: CompileTimeRandom, fuel: nat, ghost pixel: Sampler) returns (c: Option<C.Colour>)
    requires lib.Valid() && WellFormed(sky) && Samples(pixel, lib, env, sky, cam, fuel)
    modifies rng
    ensures var px := pixel(i, j, old(rng.state));
      (c.None? <==> px.None?) && (px.Some? ==> c.value == px.value.colour && rng.state == px.value.state)
  {
    ghost var s := rng.state;
    ghost var whole := SamplesFrom(lib, env, sky, cam, fuel, i, j, 0, C.Black, s);
    var sum := C.Black;
    for k := 0 to RaysPerPixel
      invariant var rest := SamplesFrom(lib, env, sky, cam, fuel, i, j, k, sum, rng.state);
        (rest.None? <==> whole.None?) && (rest.Some? ==> rest.value == whole.value)
    {
      var fu := rng.RandomFloat(lib);
      var fv := rng.RandomFloat(lib);
      var r := CameraRay(lib, cam, i, j, fu, fv);
      var sample := GetColour(lib, env, sky, r, rng, fuel);
      if sample.None? {
        assert pixel(i, j, s) == PixelOf(lib, env, sky, cam, fuel, i, j, s);
        return None;
      }
      sum := C.Add(sum, sample.value);
    }
    c := Some(C.DivScalar(lib, sum, RaysPerPixel as real));
    assert pixel(i, j, s) == PixelOf(lib, env, sky, cam, fuel, i, j, s);
  }

  /**
    The inner loop of Render over the rows j of column i, writing
    outputBuffer[i, j] and no other element: `pixel` names the sampler
    SamplePixel computes and `seed` the seed of the whole picture, and the
    generator enters in the state Before column i. `ok` is false, and the
    remaining rows are not written, when a unit-sphere sample ran out of
    attempts.
  */
  method RenderColumn(lib: Lib, outputBuffer: array2<C.Colour>, sky: Skybox, env: seq<Primitive>, cam: Camera,
                      i: nat, rng: CompileTimeRandom, fuel: nat, ghost pixel: Sampler, ghost seed: bv64) returns (ok: bool)
    requires lib.Valid() && WellFormed(sky) && Samples(pixel, lib, env, sky, cam, fuel) && i < SizeX
    requires outputBuffer.Length0 == SizeX && outputBuffer.Length1 == SizeY
    requires Before(pixel, i, 0, seed) == Some(rng.state)
    modifies outputBuffer, rng
    ensures ok <==> Before(pixel, i, SizeY, seed).Some?
    ensures ok ==> Before(pixel, i, SizeY, seed) == Some(rng.state)
    ensures ok ==> forall j :: 0 <= j < SizeY ==> ColourAt(pixel, i, j, seed) == Some(outputBuffer[i, j])
    ensures forall i', j' :: 0 <= i' < SizeX && 0 <= j' < SizeY && i' != i ==>
              outputBuffer[i', j'] == old(outputBuffer[i', j'])
  {
    for j := 0 to SizeY
      invariant Before(pixel, i, j, seed) == Some(rng.state)
      invariant forall j' :: 0 <= j' < j ==> ColourAt(pixel, i, j', seed) == Some(outputBuffer[i, j'])
      invariant forall i', j' :: 0 <= i' < SizeX && 0 <= j' < SizeY && i' != i ==>
                  outputBuffer[i', j'] == old(outputBuffer[i', j'])
    {
      ghost var before := rng.state;
      var c := SamplePixel(lib, env, sky, cam, i, j, rng, fuel, pixel);
      PixelStep(pixel, i, j, seed, before);
      if c.None? {
        MissingStays(pixel, i, j + 1, i, SizeY, seed);
        return false;
      }
      outputBuffer[i, j] := c.value;
    }
    return true;
  }

  /** Pixel (i, j) from the state in front of it: its colour, and the state in front of (i, j + 1). */
  lemma PixelStep(pixel: Sampler, i: nat, j: nat, seed: bv64, before: bv64)
    requires Before(pixel, i, j, seed) == Some(before)
    ensures pixel(i, j, before).None? ==> Before(pixel, i, j + 1, seed).None? && ColourAt(pixel, i, j, seed).None?
    ensures pixel(i, j, before).Some? ==> Before(pixel, i, j + 1, seed) == Some(pixel(i, j, before).value.state)
    ensures pixel(i, j, before).Some? ==> ColourAt(pixel, i, j, seed) == Some(pixel(i, j, before).value.colour)
  {
  }

  /**
    Render: seeds a generator from the time string, then writes every pixel
    (i, j), 0 <= i < SIZE_X, 0 <= j < SIZE_Y: the average of its twenty
    samples, with the one generator threaded through all of them in order.
    `pixel` names the sampler PixelOf (SamplerOf is one). `complete` is
    false, and the remaining pixels are not written, when a unit-sphere
    sample ran out of attempts.
  */
  method Render(lib: Lib, outputBuffer: array2<C.Colour>, sky: Skybox, env: seq<Primitive>, cam: Camera,
                timeStr: string, fuel: nat, ghost pixel: Sampler) returns (complete: bool)
    requires lib.Valid() && WellFormed(sky) && Samples(pixel, lib, env, sky, cam, fuel)
    requires outputBuffer.Length0 == SizeX && outputBuffer.Length1 == SizeY
    modifies outputBuffer
    ensures complete <==> Before(pixel, SizeX, 0, SeedState(timeStr)).Some?
    ensures complete ==> forall i, j :: 0 <= i < SizeX && 0 <= j < SizeY ==>
              ColourAt(pixel, i, j, SeedState(timeStr)) == Some(outputBuffer[i, j])
  {
    var seed := CreateSeed(timeStr);
    var rng := new CompileTimeRandom(seed as bv64);
    ghost var start := rng.state;
    assert start == SeedState(timeStr);
    for i := 0 to SizeX
      invariant Before(pixel, i, 0, start) == Some(rng.state)
      invariant forall i', j' :: 0 <= i' < i && 0 <= j' < SizeY ==>
                  ColourAt(pixel, i', j', start) == Some(outputBuffer[i', j'])
    {
      var ok := RenderColumn(lib, outputBuffer, sky, env, cam, i, rng, fuel, pixel, start);
      if !ok {
        MissingStays(pixel, i, SizeY, SizeX, 0, start);
        return false;
      }
      assert Before(pixel, i + 1, 0, start) == Before(pixel, i, SizeY, start);
    }
    return true;
  }

  // ---------------------------------------------------------------
  // CreateRectangle
  // ---------------------------------------------------------------

  /**
    CreateRectangle: the material is the one given, and the precomputed
    squared edge lengths make HitRectangle's inside test the test against
    the given corner and edges: a point is inside exactly when its offset
    from the corner projects onto each edge within that edge's own squared
    length. The corner is always inside, and with perpendicular edges so are
    the two corners next to it.
  */
  function CreateRectangle(lib: Lib, mat: Material, origin: Point, u: Point, v: Point): (rect: Rectangle)
    ensures rect.mat == mat
    ensures forall p :: InsideRectangle(rect, p) <==>
      (0.0 <= Dot(Sub(p, origin), u) <= Dot(u, u) && 0.0 <= Dot(Sub(p, origin), v) <= Dot(v, v))
    ensures InsideRectangle(rect, origin)
    ensures Dot(u, v) == 0.0 ==> InsideRectangle(rect, Add(origin, u)) && InsideRectangle(rect, Add(origin, v))
  {
    LengthSquaredNonNegative(u);
    LengthSquaredNonNegative(v);
    Rectangle(mat, origin, u, v, Normalize(lib, Cross(u, v)), LengthSquared(u), LengthSquared(v))
  }

  /**
    Over the reals, for edges that are not parallel, the precomputed normal
    is a unit vector orthogonal to both edges.
  */
  lemma RectangleNormal(lib: Lib, mat: Material, origin: Point, u: Point, v: Point)
    requires lib.Valid() && Cross(u, v) != Zero
    ensures var rect := CreateRectangle(lib, mat, origin, u, v);
      LengthSquared(rect.normal) == 1.0 && Dot(rect.normal, u) == 0.0 && Dot(rect.normal, v) == 0.0
  {
    var c := Cross(u, v);
    NormalizeUnit(lib, c);
    LengthPositive(lib, c);
    CrossOrthogonal(u, v);
    DotSymmetric(c, u);
    DotSymmetric(c, v);
    DotAfterDivision(c, u, Length(lib, c));
    DotAfterDivision(c, v, Length(lib, c));
  }

  // ---------------------------------------------------------------
  // The channel quantiser of the PPM writer
  // ---------------------------------------------------------------

  /**
    to_int: a channel clamped to [0, 1], gamma-corrected by a square root
    and scaled by 255.999, truncated to an int in [0, 255]; values at or
    below 0 give 0 and values at or above 1 give 255.
  */
  function Quantise(lib: Lib, val: real): (q: int)
    requires lib.Valid()
    ensures 0 <= q <= 255
    ensures val <= 0.0 ==> q == 0
    ensures val >= 1.0 ==> q == 255
  {
    var clamped := Max(0.0, Min(1.0, val));
    SqrtUnitInterval(lib, clamped);
    var root := lib.sqrt(clamped);
    calc { 0.0; <= 255.999 * root; <= 255.999 * 1.0; }
    Trunc(255.999 * root)
  }

  /** The quantiser is monotone: a brighter channel never gets a smaller value. */
  lemma QuantiseMonotone(lib: Lib, a: real, b: real)
    requires lib.Valid() && a <= b
    ensures Quantise(lib, a) <= Quantise(lib, b)
  {
    var ca, cb := Max(0.0, Min(1.0, a)), Max(0.0, Min(1.0, b));
    assert 0.0 <= ca <= cb;
    var ra, rb := lib.sqrt(ca), lib.sqrt(cb);
    assert ra <= rb;
    calc { 255.999 * ra; <= 255.999 * rb; }
    SqrtUnitInterval(lib, ca);
    SqrtUnitInterval(lib, cb);
  }
}
