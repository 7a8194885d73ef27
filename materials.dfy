/**
  MaterialT: the closed std::variant over the four material structs. Each
  alternative carries exactly the fields of its struct.
*/
module Materials {
  import opened Colours

  datatype Material =
    | Lambertian(albedo: Colour)
    | Metal(albedo: Colour, fuzz: real)   // fuzz is not clamped anywhere
    | Dielectric(refractiveIndex: real)   // no colour: Scatter supplies white
    | Emissive(albedo: Colour)

  /** Lambertian{}: the albedo is value-initialised to black. */
  const DefaultLambertian: Material := Lambertian(Black)

  /** Metal{}: black albedo and zero fuzz. */
  const DefaultMetal: Material := Metal(Black, 0.0)

  /** Dielectric{}: refractive index zero. */
  const DefaultDielectric: Material := Dielectric(0.0)

  /** The variant index std::variant reports, in declaration order. */
  function Index(m: Material): (i: nat)
    ensures i < 4
    ensures (i == 0 <==> m.Lambertian?) && (i == 1 <==> m.Metal?)
    ensures (i == 2 <==> m.Dielectric?) && (i == 3 <==> m.Emissive?)
  {
    match m
    case Lambertian(_) => 0
    case Metal(_, _) => 1
    case Dielectric(_) => 2
    case Emissive(_) => 3
  }

  /** The defaults hold zeros in every field, and have the variant indices 0, 1 and 2. */
  lemma DefaultsAreZero()
    ensures DefaultLambertian.albedo == Black && Index(DefaultLambertian) == 0
    ensures DefaultMetal.albedo == Black && DefaultMetal.fuzz == 0.0 && Index(DefaultMetal) == 1
    ensures DefaultDielectric.refractiveIndex == 0.0 && Index(DefaultDielectric) == 2
  {
  }
}
