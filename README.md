# Compile-time path tracer: a Dafny model

This project models the core of GrumpyPigSkin/CompileTimeRaytracer. That is a C++
path tracer that renders a 100 x 50 picture of a scene of spheres and rectangles.
The original does all of this inside `constexpr` evaluation. The model covers these parts:

- **Value types** (`point.dfy`, `colour.dfy`, `materials.dfy`): the `Point` and `Colour`
  records with their componentwise operators, dot and cross products, length and
  normalisation, and the closed four-way material sum type.
- **Random generator** (`random.dfy`):
  - the xorshift64 generator as a class with a `bv64` state that its methods update in place;
  - `random_float`;
  - the decimal-digit fold `CreateSeed` over a time string;
  - the rejection loop `RandomPointInUnitSphere`.
- **Hit tests** (`objects.dfy`): the normalising `Ray` constructor, `HitRectangle` and
  `HitSphere` as functions returning `Option`, and `HitEnvirons`. `HitEnvirons` is a loop with
  a shrinking bound, proved against the fold `ClosestHit`, and `ClosestHit` is proved to
  return the closest hit.
- **Shading** (`shading.dfy`):
  - `Reflect`, `Refract` (only whether it returns none or some), `Schlick` and `Emit`;
  - `Scatter`, which dispatches on the material. It is a method that writes its two
    out-values and advances the generator, proved against the function `ScatterOf`.
- **Tracing** (`tracer.dfy`): the bounded bounce loop `GetColour` with its two early exits
  and the skybox lookup on a miss. It is proved against `TraceFrom`.
- **Rendering** (`render.dfy`):
  - `Render` over an `array2` buffer, threading one generator through every sample of
    every pixel. It is proved against `Before` and `ColourAt`: `Before` gives the state on
    entry to each pixel, and `ColourAt` gives the colour that pixel receives.
  - `CreateRectangle`, and the channel quantiser of the PPM writer.

These parts are given as parameters, constrained only by range facts, in the datatype `CMath.Lib`
(`cmath.dfy`):

- `float` is modelled as `real`.
- `sqrt`, `pow`, `atan2`, `asin`, the uint64-to-float conversion of `random_float` and the
  value of a division by zero are uninterpreted.
- `Lib.Valid()` says only this:
  - `sqrt` is a non-negative root and is monotone;
  - `atan2` and `asin` lie in their principal ranges;
  - the conversion lies in [0, 1] and maps 0 to 0.

Nothing here claims an IEEE result. The laws that are proved hold because both sides are
built from the same products, or because they hold over the reals for any rounding-free
reading. The second kind, e.g. `CrossOrthogonal` and `NormalizeUnit`, are stated as facts
about reals.

A loop that can fail to end takes a `fuel` bound and returns `Option`:

- A rejection loop with no accepted candidate within `fuel` attempts gives `None`.
- A `None` propagates through `Scatter`, `GetColour` and `Render`.
- `Render` then reports `complete == false`.

A build at exactly midnight seeds the generator with 0, the one state xorshift never
leaves. From there no unit-sphere sample is ever accepted, so the original's do-while
loop cannot end. The model records this as `MidnightNeverSamples`; it does not change the
seed.

`Render`, `RenderColumn` and `SamplePixel` take a ghost sampler `pixel` with `requires
Samples(pixel, ...)`:

- `Samples` says that `pixel(i, j, s) == PixelOf(..., i, j, s)` for every pixel and state.
- `SamplerOf` builds such a sampler, so the precondition can always be met.
- The render order (`Before`, `After`, `ColourAt`) is stated over the sampler, so its
  proofs never unfold the tracer.

## Model

| member | source | states |
|---|---|---|
| CMath.SqrtUnitInterval | src/main.cpp:325-326 | the root of a value in [0, 1] lies in [0, 1], with 0 and 1 fixed; the quantiser depends on this |
| CMath.Div | src/Objects.hpp:56 | float `/`: for a non-zero divisor the quotient times the divisor is the dividend |
| CMath.Trunc | src/main.cpp:162-163 | `static_cast<int>` truncates toward zero: a non-negative value lies in `[n, n + 1)` with `n >= 0`, a negative one in `(n - 1, n]` with `n <= 0` |
| CMath.Abs | src/Objects.hpp:52 | `std::abs` is non-negative and is the value or its negation |
| CMath.Min | src/main.cpp:326 | `std::min` is below both arguments and is one of them |
| CMath.Max | src/main.cpp:326 | `std::max` is above both arguments and is one of them |
| Points.Add | src/Point.hpp:14-19 | `+` componentwise; no contract of its own: `ComponentsIndependent` and `SubUndoesAdd` state its laws |
| Points.Sub | src/Point.hpp:21-26 | `-` componentwise; no contract of its own: `SubUndoesAdd` states that it undoes `Add` |
| Points.Mul | src/Point.hpp:28-33 | componentwise `*`; no contract of its own: `ComponentsIndependent` and `SumOfProductIsDot` state its laws |
| Points.Scale | src/Point.hpp:35-40 | `p * s`; no contract of its own: `ScaleCommutes` and `DivScalarUndoesScale` state its laws |
| Points.ScaleLeft | src/Point.hpp:42-47 | `s * p`; no contract of its own: `ScaleCommutes` states that it equals `p * s` |
| Points.DivComponents | src/Point.hpp:49-54 | componentwise `/`; no contract of its own: `ComponentsIndependent` states its law |
| Points.DivScalar | src/Point.hpp:56-61 | `p / s`; no contract of its own: `DivScalarUndoesScale` and `DotAfterDivision` state its laws |
| Points.Sum | src/Point.hpp:77 | `sum`; no contract of its own: `SumOfProductIsDot` states that the sum of a product is the dot product |
| Points.Dot | src/Point.hpp:79-81 | `DotProduct`; no contract of its own: `DotSymmetric` states its symmetry |
| Points.LengthSquared | src/Point.hpp:83-85 | no contract of its own: `LengthSquaredIsDot` and `LengthSquaredPositive` state its laws |
| Points.Length | src/Point.hpp:87-89 | no contract of its own: `LengthSquaredIsDot` and `LengthPositive` state its laws |
| Points.Normalize | src/Point.hpp:91-93 | `point / Length(point)`; no contract of its own: `NormalizeUnit` and `NormalizeIdempotent` state its laws |
| Points.Cross | src/Point.hpp:95-98 | `CrossProduct`; no contract of its own: `CrossAntisymmetric` and `CrossOrthogonal` state its laws |
| Points.ComponentsIndependent | src/Point.hpp:14-33 | each component of `+`, `-`, componentwise `*` and `/` depends only on the same component of the operands |
| Points.ScaleCommutes | src/Point.hpp:35-47 | `p * s` and `s * p` are the same point |
| Points.SubUndoesAdd | src/Point.hpp:14-26 | subtracting `b` undoes adding `b` |
| Points.DivScalarUndoesScale | src/Point.hpp:35-40 | dividing by a non-zero scalar undoes multiplying by it |
| Points.DotSymmetric | src/Point.hpp:79-81 | `DotProduct(a, b) == DotProduct(b, a)` |
| Points.LengthSquaredIsDot | src/Point.hpp:83-89 | `LengthSquared(a) == DotProduct(a, a)` and `Length(a) == sqrt(DotProduct(a, a))` |
| Points.SumOfProductIsDot | src/Point.hpp:77-81 | `sum(a * b)` is the dot product |
| Points.CrossAntisymmetric | src/Point.hpp:95-98 | `Cross(a, b)` is the negation of `Cross(b, a)`, and `Cross(a, a)` is zero |
| Points.CrossOrthogonal | src/Point.hpp:95-98 | over reals the cross product is orthogonal to both operands |
| Points.LengthSquaredPositive | src/Point.hpp:83-85 | a non-zero point has a positive squared length |
| Points.LengthPositive | src/Point.hpp:87-89 | a non-zero point has a positive length whose square is its squared length |
| Points.NormalizeUnit | src/Point.hpp:87-93 | over reals a normalised non-zero point has squared length 1 |
| Points.UnitAfterDivision | src/Point.hpp:91-93 | dividing each coordinate by the length gives a unit vector |
| Points.NormalizeIdempotent | src/Point.hpp:91-93 | normalising a normalised non-zero point leaves it unchanged |
| Points.DotAfterDivision | src/Point.hpp:56-81 | dividing a point by `l` divides its dot products by `l` |
| Colours.Add | src/Colour.hpp:12-17 | `+` per channel; no contract of its own: `ChannelsIndependent` and `AddBlack` state its laws |
| Colours.Sub | src/Colour.hpp:19-24 | `-` per channel; no contract of its own: `ChannelsIndependent` states its law |
| Colours.Mul | src/Colour.hpp:26-31 | `*` per channel; no contract of its own: `ChannelsIndependent`, `MulWhite` and `MulBlack` state its laws |
| Colours.Scale | src/Colour.hpp:33-38 | `c * s`; no contract of its own: `ScaleLeftIsScale` and `DivScalarChannels` state its laws |
| Colours.ScaleLeft | src/Colour.hpp:40-42 | `s * c`; no contract of its own: `ScaleLeftIsScale` states that it is `c * s` |
| Colours.DivChannels | src/Colour.hpp:44-49 | `/` per channel; no contract of its own: `ChannelsIndependent` states its law |
| Colours.DivScalar | src/Colour.hpp:51-56 | `c / s`; no contract of its own: `DivScalarChannels` states its law |
| Colours.ChannelsIndependent | src/Colour.hpp:12-31 | each channel of `+`, `-`, `*` and `/` depends only on the same channel of the operands |
| Colours.ScaleLeftIsScale | src/Colour.hpp:40-42 | `s * c` is `c * s` |
| Colours.MulWhite | src/Colour.hpp:26-31 | the product with white leaves a colour unchanged, on either side |
| Colours.MulBlack | src/Colour.hpp:26-31 | the product with black is black |
| Colours.AddBlack | src/Colour.hpp:12-17 | adding black leaves a colour unchanged, on either side |
| Colours.DivScalarChannels | src/Colour.hpp:51-56 | dividing by a non-zero scalar divides each channel by it and undoes scaling |
| Materials.Index | src/Materials.hpp:24 | the four variants get the four indices 0 to 3, one each: the sum type is closed |
| Materials.DefaultsAreZero | src/Materials.hpp:7-18 | default `Lambertian`, `Metal` and `Dielectric` have zero fields and their own variant |
| Random.Xorshift | src/Random.hpp:11-17 | the three xor-shift lines; no contract of its own: `UnxorshiftUndoesStep` states that `Unxorshift` undoes it and `StepZeroIff` that it maps 0, and only 0, to 0 |
| Random.Advance | src/Random.hpp:11-17 | the state after `n` calls of `operator()`; no contract of its own: `AdvanceZeroIff` states its law |
| Random.XorStep | src/Random.hpp:13-15 | proof step for `UnxorshiftUndoesStep`: an xor chain telescopes |
| Random.XorCancel | src/Random.hpp:13-15 | proof step for `UnxorshiftUndoesStep`: xoring twice with the same value cancels |
| Random.ShiftsOfStep13 | src/Random.hpp:13 | proof step for `UndoStep13`: shifting `x ^ (x << 13)` left distributes over the xor |
| Random.ShiftsOfStep7 | src/Random.hpp:14 | proof step for `UndoStep7`: shifting `x ^ (x >> 7)` right distributes over the xor |
| Random.ShiftsOfStep17 | src/Random.hpp:15 | proof step for `UndoStep17`: shifting `x ^ (x << 17)` left distributes over the xor |
| Random.UndoStep13 | src/Random.hpp:13 | the first xorshift line is inverted by `UndoShiftLeft13` |
| Random.UndoStep7 | src/Random.hpp:14 | the second xorshift line is inverted by `UndoShiftRight7` |
| Random.UndoStep17 | src/Random.hpp:15 | the third xorshift line is inverted by `UndoShiftLeft17` |
| Random.UnxorshiftUndoesStep | src/Random.hpp:11-17 | the 64-bit step is injective: `Unxorshift` inverts it |
| Random.StepZeroIff | src/Random.hpp:11-17 | one step gives 0 exactly when the state is 0, so 0 is a fixed point and the only one |
| Random.AdvanceZeroIff | src/Random.hpp:11-17 | any number of steps gives 0 exactly when the state started at 0 |
| Random.AdvanceThree | src/Random.hpp:37-42 | proof step for `UnitSphere`: three steps then `n` more are `n + 3` steps |
| Random.Draw | src/Random.hpp:18-21 | a draw lies in [0, 1], and a generator at 0 draws 0 |
| Random.CompileTimeRandom.constructor | src/Random.hpp:9-10 | the generator starts in the given state |
| Random.CompileTimeRandom.Next | src/Random.hpp:11-17 | the state becomes the xorshift64 step of the old state and is returned; equal states give equal outputs |
| Random.CompileTimeRandom.RandomFloat | src/Random.hpp:18-21 | the state advances by exactly one step, and the result is the draw of the old state |
| Random.DigitValue | src/Random.hpp:29 | a digit's value is below 10 |
| Random.SeedOf | src/Random.hpp:24-33 | the seed of a string lies below 2^64 |
| Random.Digits | src/Random.hpp:27-28 | the digits of a string are digits and no more than the string |
| Random.SeedStep | src/Random.hpp:27-31 | one more character folds `seed * 10 + digit` modulo 2^64 if it is a digit and leaves the seed unchanged otherwise |
| Random.SeedIgnoresNonDigits | src/Random.hpp:28 | the seed of a string equals the seed of its digits alone |
| Random.SeedWithoutDigits | src/Random.hpp:26-32 | a string without digits has seed 0 |
| Random.Decimal | src/Random.hpp:29 | the decimal value of a digit string without wrap; no contract of its own: `DecimalOfPrefix` and `SeedNoWrap` relate it to the seed |
| Random.DecimalOfPrefix | src/Random.hpp:29 | dropping the last digit does not increase the decimal value |
| Random.SeedNoWrap | src/Random.hpp:29 | when the decimal value of the digits is below 2^64, the seed equals that value |
| Random.DigitStep | src/Random.hpp:29 | a digit after a small seed gives `seed * 10 + digit` with no wrap |
| Random.SeparatorStep | src/Random.hpp:28 | a non-digit leaves the seed unchanged |
| Random.ClockSeed | src/Random.hpp:24-33 | for an `HH:MM:SS` string the seed is the six-digit decimal value, below 10^6 |
| Random.CreateSeed | src/Random.hpp:24-33 | the loop returns the seed of the time string |
| Random.Coordinate | src/Random.hpp:38-40 | `2 * draw - 1` lies in [-1, 1] |
| Random.Candidate | src/Random.hpp:38-40 | one pass of the do-while body from state `s`; no contract of its own: `AcceptedCandidate`, `RejectedCandidate` and `ZeroStateNeverSamples` state what the loop does with it |
| Random.DrawCandidate | src/Random.hpp:38-40 | the three draws of one pass give `Candidate` of the entry state and move the generator three steps |
| Random.UnitSphere | src/Random.hpp:35-44 | an accepted point has squared length below 1; every attempt costs exactly three steps; the loop gives up only after `fuel` attempts |
| Random.ZeroStateNeverSamples | src/Random.hpp:35-44 | from state 0 no candidate is ever accepted, because every candidate is (-1, -1, -1) |
| Random.RejectedCandidate | src/Random.hpp:42 | a candidate with squared length at least 1 is rejected and the loop restarts three steps later |
| Random.AcceptedCandidate | src/Random.hpp:42-43 | a candidate with squared length below 1 is returned after three steps |
| Random.RandomPointInUnitSphere | src/Random.hpp:35-44 | the do-while loop returns the point and the state `UnitSphere` gives |
| Objects.MakeRay | src/Objects.hpp:11-12 | the origin is kept; `MakeRayUnit` states what becomes of the direction |
| Objects.MakeRayUnit | src/Objects.hpp:11-12 | a non-zero direction becomes a unit vector, and rebuilding a ray changes nothing |
| Objects.PlaneT | src/Objects.hpp:51-56 | none exactly when `abs(denom) < 1e-6`; otherwise the point at `t` lies on the rectangle's plane |
| Objects.RayAt | src/Objects.hpp:62 | `r.origin + t * r.direction`; no contract of its own: `HitRectangle` states that the hit point is this point |
| Objects.InsideRectangle | src/Objects.hpp:63-69 | the projection test; no contract of its own: `CreateRectangle` states what it tests |
| Objects.FacingNormal | src/Objects.hpp:75 | the rectangle's normal or its negation, whichever has a non-positive dot product with the ray: that dot product is `-abs(denom)` |
| Objects.HitRectangle | src/Objects.hpp:47-80 | none when `abs(denom) < 1e-6`; a hit exactly when `t` lies in `[tmin, tmax]` (both inclusive) and the point projects inside both edges; the hit has `point = origin + t * dir`, the rectangle's material and a normal against which the ray runs (dot product at most `-1e-6`) |
| Objects.SphereRoots | src/Objects.hpp:84-108 | none on a negative discriminant; otherwise, for a non-zero direction, the near root comes first |
| Objects.SphereHitAt | src/Objects.hpp:93-97 | the record `try_hit` fills in; no contract of its own: `HitSphere` states its fields |
| Objects.HitSphere | src/Objects.hpp:82-113 | none on a negative discriminant; otherwise the near root is tried before the far one, and any hit lies strictly inside the bounds with the sphere's normal and material |
| Objects.SphereNormalFollowsRadius | src/Objects.hpp:96 | the sphere normal is `(point - center)` scaled by `1 / radius`, pointing outward for a positive radius and inward for a negative one |
| Objects.HitWithinBounds | src/Objects.hpp:58-92 | a hit's `t` is at least `tmin` and at most the bound (strictly below it for a sphere) |
| Objects.HitNarrow | src/Objects.hpp:56-110 | `t` does not depend on the bound: lowering it turns a miss into no hit, and keeps a hit within the lower bound |
| Objects.HitObject | src/Objects.hpp:120-124 | the overload dispatch; no contract of its own: `HitWithinBounds` and `HitNarrow` state its laws |
| Objects.Step | src/Objects.hpp:127-130 | one loop iteration; no contract of its own: `StepKeepsShape`, `StepKeepsClosest` and `StepKeepsFound` state what it preserves |
| Objects.Scan | src/Objects.hpp:126-131 | the loop state after each prefix; no contract of its own: `ScanKeepsInvariant` states its invariant |
| Objects.ClosestHit | src/Objects.hpp:115-134 | the loop's result; no contract of its own: `ClosestHitCorrect` states that it is the closest hit |
| Objects.FoundInPrefix | src/Objects.hpp:126-131 | a hit that an object reports in a prefix of the scan is still reported in the whole scan |
| Objects.FoundHitsUnderMax | src/Objects.hpp:121-124 | an object that reports a hit under a shrunken bound also hits under `tmax` |
| Objects.ScanLast | src/Objects.hpp:126-131 | the scan of `objects` is one step after the scan of all but the last |
| Objects.StepKeepsShape | src/Objects.hpp:127-130 | one step of the scan keeps `closest` equal to the result's `t`, or to `tmax` without one, and keeps the result none exactly while every object seen misses |
| Objects.StepKeepsClosest | src/Objects.hpp:127-130 | one step of the scan keeps the result no later than any object seen so far |
| Objects.StepKeepsFound | src/Objects.hpp:127-130 | one step of the scan keeps the result a hit reported by some object seen so far |
| Objects.ScanKeepsInvariant | src/Objects.hpp:115-134 | the whole scan keeps the three invariants above |
| Objects.ClosestHitCorrect | src/Objects.hpp:115-134 | none exactly when every object misses on `(tmin, tmax)`; a result's `t` is at most `tmax` and at most the `t` of every object's own hit; it is reported by some object |
| Objects.ClosestHitMaterial | src/Objects.hpp:115-134 | the result's material is the material of one of the objects |
| Objects.TieBreak | src/Objects.hpp:58-131 | a later rectangle at exactly the current closest `t` replaces the hit; a later sphere replaces it only when strictly nearer |
| Objects.HitEnvirons | src/Objects.hpp:115-134 | the loop returns `ClosestHit`: none exactly when all objects miss, otherwise a hit no later than any object's own |
| Shading.Reflect | src/main.cpp:40-42 | no contract of its own: `ReflectFlipsNormalComponent` states its laws |
| Shading.CosT2 | src/main.cpp:47 | `costT2`; no contract of its own: `Refract` states that it decides whether there is a refracted ray |
| Shading.ReflectFlipsNormalComponent | src/main.cpp:40-42 | for a unit normal, reflection negates the direction's component along it, and reflecting twice restores the direction |
| Shading.Refract | src/main.cpp:44-52 | no refracted direction exactly when `costT2 <= 0` |
| Shading.RefractIntoDenser | src/main.cpp:44-52 | with `niOverDt^2 < 1` a refracted direction always exists |
| Shading.SchlickBetween | src/main.cpp:54-59 | for a base and a fifth power in [0, 1], the Schlick probability lies between the base and 1 |
| Shading.BlendBetween | src/main.cpp:58 | `r + (1 - r) * q` lies in [r, 1] for `r` and `q` in [0, 1] |
| Shading.Schlick | src/main.cpp:54-59 | no contract of its own: `SchlickBetween` states its range |
| Shading.Emit | src/main.cpp:61-65 | no contract of its own: `EmitAdds` states what it adds to the colour |
| Shading.EmitAdds | src/main.cpp:61-65 | a hit on a non-emissive material adds nothing to the running colour, whatever the attenuation; a light seen first, from the black start with white attenuation, gives exactly its albedo |
| Shading.DielectricInterface | src/main.cpp:94-103 | the side test; no contract of its own: `ScatterDielectric` and `TotalReflectionWithDrawOne` state what the dielectric branch does with it |
| Shading.ReflectProbability | src/main.cpp:104-110 | `reflect_prob`; no contract of its own: `TotalReflectionWithDrawOne` states that it is 1 on total internal reflection |
| Shading.Refracted | src/main.cpp:104-110 | `refracted`; no contract of its own: `ScatterDielectric` states where it is used |
| Shading.LambertianScatter | src/main.cpp:70-76 | no contract of its own: `ScatterLambertian` states its outcome |
| Shading.MetalScatter | src/main.cpp:78-85 | no contract of its own: `ScatterMetal` states its outcome |
| Shading.DielectricScatter | src/main.cpp:87-119 | no contract of its own: `ScatterDielectric` states its outcome |
| Shading.ScatterOf | src/main.cpp:67-127 | the dispatch on the material; no contract of its own: `ScatterEmissive`, `ScatterLambertian`, `ScatterMetal` and `ScatterDielectric` state each case, and `Scatter` is proved against it |
| Shading.ScatterEmissive | src/main.cpp:121 | an emissive hit returns false, leaves both out-values and the generator as they were |
| Shading.ScatterLambertian | src/main.cpp:70-76 | returns true with the albedo, a ray from the hit point along the normalised normal plus the sphere sample, and the sampler's state; fails exactly when the sampler does |
| Shading.ScatterMetal | src/main.cpp:78-85 | sets the albedo and a ray from the hit point in the direction of the normalised mirror direction plus `fuzz` times the sample, and continues exactly when that direction has a positive dot with the normal |
| Shading.ScatterDielectric | src/main.cpp:87-119 | always continues with attenuation exactly white and one draw; the probability is 1 when `Refract` fails; the ray reflects exactly when the draw is below it and refracts otherwise |
| Shading.TotalReflectionWithDrawOne | src/main.cpp:104-116 | with no refraction and a draw of exactly 1, the scattered direction is the normalised zero point `refracted` starts as |
| Shading.VisitLambertian | src/main.cpp:70-76 | the method writes and returns what `LambertianScatter` gives and leaves the generator in its state |
| Shading.VisitMetal | src/main.cpp:78-85 | the method writes and returns what `MetalScatter` gives and leaves the generator in its state |
| Shading.VisitDielectric | src/main.cpp:87-119 | the method writes and returns what `DielectricScatter` gives and leaves the generator in its state |
| Shading.Scatter | src/main.cpp:67-127 | the dispatch writes and returns what `ScatterOf` gives for the hit's material |
| Tracer.SkyIndex | src/main.cpp:153-163 | the skybox index lies inside the `SIZE_Y` by `SIZE_X` texture |
| Tracer.UnitScaledIndex | src/main.cpp:161-162 | truncating `u * m` for `u` in [0, 1] gives an index in [0, m] |
| Tracer.Background | src/main.cpp:153-165 | the skybox texel of the ray direction; no contract of its own: `SkyIndex` states that the index is in range and `MissIsSky` what a miss returns |
| Tracer.TraceFrom | src/main.cpp:139-168 | starting at iteration `i`, at most `50 - i` iterations run, and at least one when any is left |
| Tracer.GetColourOf | src/main.cpp:129-171 | `TraceFrom` from iteration 0; no contract of its own: `GetColour` is proved against it and `IterationsBounded`, `MissIsSky` and `LightIsAlbedo` state its laws |
| Tracer.IterationsBounded | src/main.cpp:131-139 | a trace runs between 1 and 50 iterations |
| Tracer.MissIsSky | src/main.cpp:152-166 | a ray that misses every object gets the skybox colour of its direction, with the generator untouched |
| Tracer.LightIsAlbedo | src/main.cpp:140-151 | a first hit on an emissive object gives exactly its albedo and stops |
| Tracer.MissUsesOriginalRay | src/main.cpp:152-164 | on a miss at any depth the sky sample is looked up from the original ray's direction, times the attenuation so far |
| Tracer.HitThenScatter | src/main.cpp:140-151 | a hit first adds `attenuation * Emit(mat)`; it stops when `Scatter` returns false and otherwise continues with `sc_atten * attenuation` and the scattered ray |
| Tracer.NoLightNoColour | src/main.cpp:139-168 | with a black sky and no emissive object, tracing adds nothing to the colour |
| Tracer.NoLightAfterHit | src/main.cpp:140-151 | the hit case of `NoLightNoColour`: after a hit on a non-emissive object the path still ends with the colour it had |
| Tracer.NoEmitterHit | src/main.cpp:140 | in a scene with no emissive object the closest hit is not on an emitter |
| Tracer.DarkMiss | src/main.cpp:152-166 | a miss under a black sky adds nothing |
| Tracer.DarkHit | src/main.cpp:140-151 | a hit on a non-emissive object adds nothing: the path either stops with the colour it had, or continues with that colour from the scattered ray, the new attenuation and the new state it returns |
| Tracer.GetColour | src/main.cpp:129-171 | the loop returns the colour `TraceFrom` gives from iteration 0 and leaves the generator in its final state |
| Renderer.CameraRay | src/main.cpp:186-191 | the ray through `(i + u) / 100, (j + v) / 50`; no contract of its own: `EmptySceneSamples` uses it |
| Renderer.SamplesFrom | src/main.cpp:185-193 | the sample loop from sample `k`; no contract of its own: `SamplePixel` is proved against it |
| Renderer.PixelOf | src/main.cpp:184-194 | the average of the twenty samples; no contract of its own: `SamplePixel` is proved against it and `EmptyScenePixel` states its value for an empty scene |
| Renderer.SamplerOf | src/main.cpp:184-194 | its sampler is `PixelOf` at every pixel and state, so the sampler precondition can be met |
| Renderer.MissingStays | src/main.cpp:182-196 | once a pixel fails, no later pixel has a state |
| Renderer.ColourPresent | src/main.cpp:185-194 | a pixel has a colour exactly when its successor has an entry state |
| Renderer.ImageOfTime | src/Random.hpp:27-31 | the picture depends only on the digits of the time string |
| Renderer.MidnightNeverSamples | src/Random.hpp:24-44 | a build at `00:00:00` seeds the generator with 0, and no unit-sphere sample from that state is ever accepted |
| Renderer.EmptySceneSamples | src/main.cpp:185-193 | with no objects and a single-colour sky, each of the remaining samples adds that colour and costs exactly two steps |
| Renderer.EmptySceneRay | src/main.cpp:152-166 | with no objects, a ray gets the sky colour in one iteration without drawing |
| Renderer.ScaleStep | src/main.cpp:192 | proof step for `EmptySceneSamples`: adding one more sample of `c` to `k` of them gives `k + 1` of them |
| Renderer.AdvanceTwo | src/main.cpp:186-189 | proof step for `EmptySceneSamples`: two draws then `n` steps are `n + 2` steps |
| Renderer.EmptyScenePixel | src/main.cpp:184-194 | with no objects and a single-colour sky a pixel is that colour, after exactly 40 steps |
| Renderer.ScaleZero | src/main.cpp:184 | proof step for `EmptyScenePixel`: the sum starts at black |
| Renderer.ConstantPicture | src/main.cpp:182-196 | if every pixel has colour `c`, every pixel in the picture gets `c` |
| Renderer.EmptySceneIsSky | src/main.cpp:173-197 | with no objects and a single-colour sky the render completes and every pixel is the sky colour |
| Renderer.SamplePixel | src/main.cpp:184-194 | 20 samples, two draws each before the trace, summed and divided by 20: the pixel's colour and state |
| Renderer.RenderColumn | src/main.cpp:183-195 | column `i` is written pixel by pixel with `ColourAt`, from the state `Before` gives, and no other column changes |
| Renderer.PixelStep | src/main.cpp:183-194 | proof step for `RenderColumn`: a pixel reached with a state gives its colour and the state in front of the next row, or is missing along with the next position |
| Renderer.Render | src/main.cpp:173-197 | seeded from the time string, the render completes exactly when every pixel's samples succeed, and then writes every `(i, j)` with `0 <= i < 100` and `0 <= j < 50` with that pixel's colour in order |
| Renderer.CreateRectangle | src/main.cpp:199-204 | the material is kept and the inside test of the stored rectangle is exactly the test against the given corner and edges; the corner is inside, and so are its two neighbours when the edges are perpendicular |
| Renderer.RectangleNormal | src/main.cpp:199-204 | for edges whose cross product is not zero, the normal is a unit vector orthogonal to both edges |
| Renderer.Quantise | src/main.cpp:324-327 | the channel value lies in [0, 255]: 0 at or below 0, 255 at or above 1 |
| Renderer.QuantiseMonotone | src/main.cpp:324-327 | a brighter channel never quantises lower |

## Left out

- IEEE float rounding, NaN and infinity are not modelled: `float` is `real`. For example,
  a NaN `t` passing the rectangle bound check is not captured.
- `sqrt`, `pow`, `atan2`, `asin` and the uint64-to-float conversion are uninterpreted, with
  range facts only. Snell's law and Schlick's approximation are not proved physically correct.
- Division by zero gives the unspecified value `lib.divZero(x)`, not infinity or NaN.
- The constant `1e-6` in `HitRectangle` is the exact real 0.000001, not its float rounding.
- Random.UnitSphere: the rejection loop has a `fuel` bound. Its termination in the original
  is only probabilistic, and running out of fuel is reported as `None`. The loop never takes
  more than `fuel` attempts.
- Renderer.Render: it returns `complete == false` when a sampler runs out of fuel, which the
  original cannot do.
- `pow` and `sqrt` on points (`src/Point.hpp:63-75`) are not used by the renderer and are
  not modelled.
- The file-scope `MAX_DEPTH = 10` (`src/main.cpp:24`) is never read and is only recorded as
  a comment.
- Scene and camera construction in `MakeCornellBox` and `CreateImage`, including the skybox
  gradient, is concrete data with no behaviour. The scene, skybox and camera are parameters.
- PPM output through `fmt` is I/O and is left out, apart from the quantiser `Quantise`.
- `src/Overloaded.hpp` is visitor machinery and becomes `match`.
- `constexpr` evaluation, the `__TIME__` macro and the `mdspan` layout are not modelled.
  The time string is a parameter of `Render`, which builds its generator from it as the
  original does. The buffer is an `array2` indexed `[i, j]`. The skybox is a sequence of
  `SIZE_Y` rows of `SIZE_X` colours.
- Objects.ClosestHitCorrect: it states that the result is a hit some object reports for
  some bound no greater than `tmax`, not that it is the hit that object reports alone
  under `tmax`. When the sphere's `a` is 0 the two roots are unspecified division results
  whose order is unknown over the model.
- Renderer.SamplePixel and Renderer.RenderColumn: they are the two inner loops of
  `Render`, written as methods of their own.
- Renderer.Render: the picture is stated pixel by pixel through `Before` and `ColourAt`,
  over a ghost sampler that `Samples` ties to `PixelOf`. It is not stated as one
  two-dimensional sequence.
