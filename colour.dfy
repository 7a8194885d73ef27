/**
  struct Colour and its friend operators: the same copy-edit-return pattern
  as Point, channel by channel on r, g and b.
*/
module Colours {
  import opened CMath

  datatype Colour = Colour(r: real, g: real, b: real)

  /** Colour{} and Colour{0.f, 0.f, 0.f}. */
  const Black: Colour := Colour(0.0, 0.0, 0.0)

  /** Colour{1.f, 1.f, 1.f}: the integrator's starting attenuation. */
  const White: Colour := Colour(1.0, 1.0, 1.0)

  /** The three channels, to speak about one of them at a time. */
  datatype Channel = R | G | B

  function Get(c: Colour, k: Channel): real {
    match k
    case R => c.r
    case G => c.g
    case B => c.b
  }

  /** operator+(Colour, Colour) */
  function Add(a: Colour, b: Colour): Colour {
    Colour(a.r + b.r, a.g + b.g, a.b + b.b)
  }

  /** operator-(Colour, Colour) */
  function Sub(a: Colour, b: Colour): Colour {
    Colour(a.r - b.r, a.g - b.g, a.b - b.b)
  }

  /** operator*(Colour, Colour): the channelwise product. */
  function Mul(a: Colour, b: Colour): Colour {
    Colour(a.r * b.r, a.g * b.g, a.b * b.b)
  }

  /** operator*(Colour, float) */
  function Scale(c: Colour, s: real): Colour {
    Colour(c.r * s, c.g * s, c.b * s)
  }

  /** operator*(float, Colour): defined in the source as lhs * rhs. */
  function ScaleLeft(s: real, c: Colour): Colour {
    Scale(c, s)
  }

  /** operator/(Colour, Colour): the channelwise quotient. */
  function DivChannels(lib: Lib, a: Colour, b: Colour): Colour {
    Colour(Div(lib, a.r, b.r), Div(lib, a.g, b.g), Div(lib, a.b, b.b))
  }

  /** operator/(Colour, float) */
  function DivScalar(lib: Lib, c: Colour, s: real): Colour {
    Colour(Div(lib, c.r, s), Div(lib, c.g, s), Div(lib, c.b, s))
  }

  /**
    Each channel of +, -, channelwise * and channelwise / depends only on
    the same channel of the operands.
  */
  lemma ChannelsIndependent(lib: Lib, k: Channel, a: Colour, b: Colour, a': Colour, b': Colour)
    requires Get(a, k) == Get(a', k) && Get(b, k) == Get(b', k)
    ensures Get(Add(a, b), k) == Get(Add(a', b'), k)
    ensures Get(Sub(a, b), k) == Get(Sub(a', b'), k)
    ensures Get(Mul(a, b), k) == Get(Mul(a', b'), k)
    ensures Get(DivChannels(lib, a, b), k) == Get(DivChannels(lib, a', b'), k)
  {
  }

  /** s * c and c * s give the same colour. */
  lemma ScaleLeftIsScale(c: Colour, s: real)
    ensures ScaleLeft(s, c) == Scale(c, s)
  {
  }

  /** The channelwise product with white, on either side, leaves a colour unchanged. */
  lemma MulWhite(c: Colour)
    ensures Mul(c, White) == c && Mul(White, c) == c
  {
  }

  /** The channelwise product with black is black. */
  lemma MulBlack(c: Colour)
    ensures Mul(c, Black) == Black
  {
  }

  /** Adding black leaves a colour unchanged: the integrator's starting sum. */
  lemma AddBlack(c: Colour)
    ensures Add(Black, c) == c && Add(c, Black) == c
  {
  }

  /**
    Dividing by a non-zero scalar divides every channel by it, and undoes
    scaling by it.
  */
  lemma DivScalarChannels(lib: Lib, c: Colour, s: real, k: Channel)
    requires s != 0.0
    ensures Get(DivScalar(lib, c, s), k) == Get(c, k) / s
    ensures DivScalar(lib, Scale(c, s), s) == c
  {
  }
}
