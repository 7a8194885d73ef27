/**
  CompileTimeRandom (an xorshift64 generator over one 64-bit state word),
  the seed taken from the build clock, and the rejection sampler for a
  point inside the unit ball.

  The state lives in a class whose methods update it in place, as the
  C++ member functions do. Each method is tied to a function of the state
  before the call (Xorshift, Advance, UnitSphere), and what the generator
  promises is proved about those functions.
*/
module Random {
  import opened CMath
  import opened Points
  import opened Wrappers

  // ---------------------------------------------------------------
  // The xorshift64 step
  // ---------------------------------------------------------------

  /** x ^= x << 13, on 64 bits: the bits shifted past bit 63 are lost. */
  function XorShl13(x: bv64): bv64 {
    x ^ (x << 13)
  }

  /** x ^= x >> 7 */
  function XorShr7(x: bv64): bv64 {
    x ^ (x >> 7)
  }

  /** x ^= x << 17 */
  function XorShl17(x: bv64): bv64 {
    x ^ (x << 17)
  }

  /** One step of operator(): the three xor-shifts in order. */
  function Xorshift(s: bv64): bv64 {
    XorShl17(XorShr7(XorShl13(s)))
  }

  /** Undoes x ^= x << 13. */
  function UndoShiftLeft13(y: bv64): bv64 {
    y ^ (y << 13) ^ (y << 26) ^ (y << 39) ^ (y << 52)
  }

  /** Undoes x ^= x >> 7. */
  function UndoShiftRight7(y: bv64): bv64 {
    y ^ (y >> 7) ^ (y >> 14) ^ (y >> 21) ^ (y >> 28) ^ (y >> 35) ^ (y >> 42) ^ (y >> 49) ^ (y >> 56) ^ (y >> 63)
  }

  /** Undoes x ^= x << 17. */
  function UndoShiftLeft17(y: bv64): bv64 {
    y ^ (y << 17) ^ (y << 34) ^ (y << 51)
  }

  /** The inverse of one generator step: the three xor-shifts undone in reverse order. */
  function Unxorshift(t: bv64): bv64 {
    UndoShiftLeft13(UndoShiftRight7(UndoShiftLeft17(t)))
  }

  // Small bit-vector facts; the inverse is assembled from them by congruence,
  // which keeps the solver away from long xor chains.

  lemma XorStep(a: bv64, b: bv64, c: bv64)
    ensures (a ^ b) ^ (b ^ c) == a ^ c
  {
  }

  lemma XorCancel(a: bv64, b: bv64)
    ensures (a ^ b) ^ b == a
  {
  }

  lemma ShiftsOfStep13(x: bv64)
    ensures (x ^ (x << 13)) << 13 == (x << 13) ^ (x << 26)
    ensures (x ^ (x << 13)) << 26 == (x << 26) ^ (x << 39)
    ensures (x ^ (x << 13)) << 39 == (x << 39) ^ (x << 52)
    ensures (x ^ (x << 13)) << 52 == x << 52
  {
  }

  lemma ShiftsOfStep7(x: bv64)
    ensures (x ^ (x >> 7)) >> 7 == (x >> 7) ^ (x >> 14)
    ensures (x ^ (x >> 7)) >> 14 == (x >> 14) ^ (x >> 21)
    ensures (x ^ (x >> 7)) >> 21 == (x >> 21) ^ (x >> 28)
    ensures (x ^ (x >> 7)) >> 28 == (x >> 28) ^ (x >> 35)
    ensures (x ^ (x >> 7)) >> 35 == (x >> 35) ^ (x >> 42)
    ensures (x ^ (x >> 7)) >> 42 == (x >> 42) ^ (x >> 49)
    ensures (x ^ (x >> 7)) >> 49 == (x >> 49) ^ (x >> 56)
    ensures (x ^ (x >> 7)) >> 56 == (x >> 56) ^ (x >> 63)
    ensures (x ^ (x >> 7)) >> 63 == x >> 63
  {
  }

  lemma ShiftsOfStep17(x: bv64)
    ensures (x ^ (x << 17)) << 17 == (x << 17) ^ (x << 34)
    ensures (x ^ (x << 17)) << 34 == (x << 34) ^ (x << 51)
    ensures (x ^ (x << 17)) << 51 == x << 51
  {
  }

  /** UndoShiftLeft13 inverts the first line of the step, x ^= x << 13. */
  lemma UndoStep13(x: bv64)
    ensures UndoShiftLeft13(x ^ (x << 13)) == x
  {
    ShiftsOfStep13(x);
    XorStep(x, x << 13, x << 26);
    XorStep(x, x << 26, x << 39);
    XorStep(x, x << 39, x << 52);
    XorCancel(x, x << 52);
  }

  /** UndoShiftRight7 inverts the second line of the step, x ^= x >> 7. */
  lemma UndoStep7(x: bv64)
    ensures UndoShiftRight7(x ^ (x >> 7)) == x
  {
    ShiftsOfStep7(x);
    XorStep(x, x >> 7, x >> 14);
    XorStep(x, x >> 14, x >> 21);
    XorStep(x, x >> 21, x >> 28);
    XorStep(x, x >> 28, x >> 35);
    XorStep(x, x >> 35, x >> 42);
    XorStep(x, x >> 42, x >> 49);
    XorStep(x, x >> 49, x >> 56);
    XorStep(x, x >> 56, x >> 63);
    XorCancel(x, x >> 63);
  }

  /** UndoShiftLeft17 inverts the third line of the step, x ^= x << 17. */
  lemma UndoStep17(x: bv64)
    ensures UndoShiftLeft17(x ^ (x << 17)) == x
  {
    ShiftsOfStep17(x);
    XorStep(x, x << 17, x << 34);
    XorStep(x, x << 34, x << 51);
    XorCancel(x, x << 51);
  }

  /** Unxorshift recovers the state a step started from, so no two states step alike. */
  lemma UnxorshiftUndoesStep(s: bv64)
    ensures Unxorshift(Xorshift(s)) == s
  {
    var a := XorShl13(s);
    var b := XorShr7(a);
    UndoStep17(b);
    UndoStep7(a);
    UndoStep13(s);
    assert UndoShiftLeft17(XorShl17(b)) == b;
    assert UndoShiftRight7(XorShr7(a)) == a;
    assert UndoShiftLeft13(XorShl13(s)) == s;
  }

  /** State 0 is the one fixed point of a step: a step yields 0 exactly from 0. */
  lemma StepZeroIff(s: bv64)
    ensures Xorshift(s) == 0 <==> s == 0
  {
  }

  /** The state after n steps. */
  function Advance(s: bv64, n: nat): bv64
    decreases n
  {
    if n == 0 then s else Advance(Xorshift(s), n - 1)
  }

  /** A generator at 0 stays at 0 for ever; one anywhere else never reaches 0. */
  lemma {:induction false} AdvanceZeroIff(s: bv64, n: nat)
    ensures Advance(s, n) == 0 <==> s == 0
    decreases n
  {
    if n > 0 {
      StepZeroIff(s);
      AdvanceZeroIff(Xorshift(s), n - 1);
    }
  }

  /** Three steps at once, the cost of one sampling attempt. */
  lemma AdvanceThree(s: bv64, n: nat)
    ensures Advance(s, n + 3) == Advance(Xorshift(Xorshift(Xorshift(s))), n)
  {
    assert Advance(s, n + 3) == Advance(Xorshift(s), n + 2);
    assert Advance(Xorshift(s), n + 2) == Advance(Xorshift(Xorshift(s)), n + 1);
  }

  /**
    random_float from state s: the new state converted to float and divided
    by UINT64_MAX, abstracted as lib.toUnit of the new state.
  */
  function Draw(lib: Lib, s: bv64): (f: real)
    requires lib.Valid()
    ensures 0.0 <= f <= 1.0
    ensures s == 0 ==> f == 0.0
  {
    StepZeroIff(s);
    lib.toUnit(Xorshift(s))
  }

  class CompileTimeRandom {
    var state: bv64

    /** CompileTimeRandom{seed}: aggregate initialisation of the state. */
    constructor (seed: bv64)
      ensures state == seed
    {
      state := seed;
    }

    /** operator(): one step, stored back into state and returned. */
    method Next() returns (x: bv64)
      modifies this
      ensures state == Xorshift(old(state)) && x == state
    {
      x := state;
      x := XorShl13(x);
      x := XorShr7(x);
      x := XorShl17(x);
      state := x;
    }

    /** random_float(): exactly one step, its result mapped into [0, 1]. */
    method RandomFloat(lib: Lib) returns (f: real)
      requires lib.Valid()
      modifies this
      ensures state == Xorshift(old(state)) && state == Advance(old(state), 1)
      ensures f == Draw(lib, old(state))
    {
      var x := Next();
      f := lib.toUnit(x);
    }
  }

  // ---------------------------------------------------------------
  // CreateSeed
  // ---------------------------------------------------------------

  /** 2^64: std::uint64_t arithmetic wraps modulo this. */
  const U64: nat := 0x1_0000_0000_0000_0000

  predicate IsDigit(c: char) {
    '0' <= c <= '9'
  }

  function DigitValue(c: char): (d: nat)
    requires IsDigit(c)
    ensures d < 10
  {
    c as int - '0' as int
  }

  /** The seed CreateSeed folds out of a string: seed * 10 + digit, wrapping at 2^64. */
  function SeedOf(s: string): (r: nat)
    ensures r < U64
  {
    if s == [] then 0
    else
      var c := s[|s| - 1];
      var prev := SeedOf(s[..|s| - 1]);
      if IsDigit(c) then (prev * 10 + DigitValue(c)) % U64 else prev
  }

  /** The digits of a string, in order. */
  function Digits(s: string): (ds: string)
    ensures |ds| <= |s|
    ensures forall i :: 0 <= i < |ds| ==> IsDigit(ds[i])
  {
    if s == [] then []
    else Digits(s[..|s| - 1]) + (if IsDigit(s[|s| - 1]) then [s[|s| - 1]] else [])
  }

  /** The decimal value of a string of digits, without any wrap-around. */
  function Decimal(ds: string): nat
    requires forall i :: 0 <= i < |ds| ==> IsDigit(ds[i])
  {
    if ds == [] then 0 else Decimal(ds[..|ds| - 1]) * 10 + DigitValue(ds[|ds| - 1])
  }

  /** One character of the fold, as the loop body performs it. */
  lemma SeedStep(s: string, k: nat)
    requires k < |s|
    ensures SeedOf(s[..k + 1]) == if IsDigit(s[k]) then (SeedOf(s[..k]) * 10 + DigitValue(s[k])) % U64 else SeedOf(s[..k])
  {
    assert s[..k + 1][..k] == s[..k];
  }

  /** The seed of a string is the seed of its digits alone: other characters are skipped. */
  lemma {:induction false} SeedIgnoresNonDigits(s: string)
    ensures SeedOf(Digits(s)) == SeedOf(s)
    decreases |s|
  {
    if s != [] {
      var init, c := s[..|s| - 1], s[|s| - 1];
      SeedIgnoresNonDigits(init);
      if IsDigit(c) {
        var ds := Digits(init) + [c];
        assert Digits(s) == ds;
        assert ds[..|ds| - 1] == Digits(init) && ds[|ds| - 1] == c;
      } else {
        assert Digits(s) == Digits(init) + [];
        assert Digits(init) + [] == Digits(init);
      }
    }
  }

  /** A string without digits yields seed 0. */
  lemma {:induction false} SeedWithoutDigits(s: string)
    requires forall i :: 0 <= i < |s| ==> !IsDigit(s[i])
    ensures Digits(s) == [] && SeedOf(s) == 0
    decreases |s|
  {
    if s != [] {
      SeedWithoutDigits(s[..|s| - 1]);
    }
  }

  /** Appending a digit never makes the decimal value smaller. */
  lemma DecimalOfPrefix(ds: string)
    requires ds != [] && forall i :: 0 <= i < |ds| ==> IsDigit(ds[i])
    ensures Decimal(ds[..|ds| - 1]) <= Decimal(ds)
  {
  }

  /**
    When the decimal value of the digits fits in 64 bits, nothing wraps:
    the seed is that value.
  */
  lemma {:induction false} SeedNoWrap(s: string)
    requires Decimal(Digits(s)) < U64
    ensures SeedOf(s) == Decimal(Digits(s))
    decreases |s|
  {
    if s != [] {
      var init, c := s[..|s| - 1], s[|s| - 1];
      if IsDigit(c) {
        var ds := Digits(init) + [c];
        assert Digits(s) == ds;
        assert ds[..|ds| - 1] == Digits(init) && ds[|ds| - 1] == c;
        DecimalOfPrefix(ds);
        SeedNoWrap(init);
      } else {
        assert Digits(s) == Digits(init) + [];
        assert Digits(init) + [] == Digits(init);
        SeedNoWrap(init);
      }
    }
  }

  /** The shape of __TIME__: "HH:MM:SS". */
  predicate IsClock(s: string) {
    && |s| == 8 && s[2] == ':' && s[5] == ':'
    && IsDigit(s[0]) && IsDigit(s[1]) && IsDigit(s[3])
    && IsDigit(s[4]) && IsDigit(s[6]) && IsDigit(s[7])
  }

  /** A digit step of the fold that cannot wrap. */
  lemma DigitStep(s: string, k: nat, v: nat)
    requires k < |s| && IsDigit(s[k]) && SeedOf(s[..k]) == v && v < 100000
    ensures SeedOf(s[..k + 1]) == v * 10 + DigitValue(s[k])
  {
    SeedStep(s, k);
  }

  /** A separator step of the fold leaves the seed alone. */
  lemma SeparatorStep(s: string, k: nat, v: nat)
    requires k < |s| && !IsDigit(s[k]) && SeedOf(s[..k]) == v
    ensures SeedOf(s[..k + 1]) == v
  {
    SeedStep(s, k);
  }

  /** For a clock string the seed is the six-digit number HHMMSS, below 10^6. */
  lemma ClockSeed(s: string)
    requires IsClock(s)
    ensures SeedOf(s) == DigitValue(s[0]) * 100000 + DigitValue(s[1]) * 10000 + DigitValue(s[3]) * 1000
                         + DigitValue(s[4]) * 100 + DigitValue(s[6]) * 10 + DigitValue(s[7])
    ensures SeedOf(s) < 1000000
  {
    var d0, d1, d3, d4, d6, d7 := DigitValue(s[0]), DigitValue(s[1]), DigitValue(s[3]), DigitValue(s[4]), DigitValue(s[6]), DigitValue(s[7]);
    assert s[..0] == [];
    DigitStep(s, 0, 0);
    DigitStep(s, 1, d0);
    SeparatorStep(s, 2, d0 * 10 + d1);
    DigitStep(s, 3, d0 * 10 + d1);
    DigitStep(s, 4, d0 * 100 + d1 * 10 + d3);
    SeparatorStep(s, 5, d0 * 1000 + d1 * 100 + d3 * 10 + d4);
    DigitStep(s, 6, d0 * 1000 + d1 * 100 + d3 * 10 + d4);
    DigitStep(s, 7, d0 * 10000 + d1 * 1000 + d3 * 100 + d4 * 10 + d6);
    assert s[..8] == s;
  }

  /** CreateSeed with the build time passed in: the loop over the characters. */
  method CreateSeed(timeStr: string) returns (seed: nat)
    ensures seed == SeedOf(timeStr) && seed < U64
  {
    seed := 0;
    var i := 0;
    assert timeStr[..0] == [];
    while i < |timeStr|
      invariant 0 <= i <= |timeStr|
      invariant seed == SeedOf(timeStr[..i])
    {
      var c := timeStr[i];
      SeedStep(timeStr, i);
      if '0' <= c <= '9' {
        seed := (seed * 10 + (c as int - '0' as int)) % U64;
      }
      i := i + 1;
    }
    assert timeStr[..i] == timeStr;
  }

  // ---------------------------------------------------------------
  // RandomPointInUnitSphere
  // ---------------------------------------------------------------

  /** 2 * random_float() - 1, the coordinate one draw from state s gives. */
  function Coordinate(lib: Lib, s: bv64): (c: real)
    requires lib.Valid()
    ensures -1.0 <= c <= 1.0
  {
    2.0 * Draw(lib, s) - 1.0
  }

  /** One pass of the do-while body: three draws, for x, y and z in turn. */
  function Candidate(lib: Lib, s: bv64): Point
    requires lib.Valid()
  {
    Point(Coordinate(lib, s), Coordinate(lib, Xorshift(s)), Coordinate(lib, Xorshift(Xorshift(s))))
  }

  /**
    The outcome of the sampler: the accepted point (None when no candidate
    was accepted within the allowed attempts), the generator state after it,
    and the number of attempts made.
  */
  datatype Sample = Sample(point: Option<Point>, state: bv64, attempts: nat)

  /**
    The do-while loop, allowed at most `fuel` attempts: a candidate with
    squared length >= 1 is rejected and the loop draws again.
  */
  function UnitSphere(lib: Lib, s: bv64, fuel: nat): (r: Sample)
    requires lib.Valid()
    ensures r.attempts <= fuel
    ensures r.state == Advance(s, 3 * r.attempts)
    ensures r.point.Some? ==> LengthSquared(r.point.value) < 1.0 && r.attempts >= 1
    ensures r.point.None? ==> r.attempts == fuel
    decreases fuel
  {
    if fuel == 0 then Sample(None, s, 0)
    else
      var p := Candidate(lib, s);
      var next := Xorshift(Xorshift(Xorshift(s)));
      if LengthSquared(p) >= 1.0 then
        var rest := UnitSphere(lib, next, fuel - 1);
        AdvanceThree(s, 3 * rest.attempts);
        Sample(rest.point, rest.state, rest.attempts + 1)
      else
        AdvanceThree(s, 0);
        Sample(Some(p), next, 1)
  }

  /**
    A generator at state 0 never yields a point: every draw is 0, every
    candidate is (-1, -1, -1), and it is rejected.
  */
  lemma {:induction false} ZeroStateNeverSamples(lib: Lib, fuel: nat)
    requires lib.Valid()
    ensures UnitSphere(lib, 0, fuel).point == None
    decreases fuel
  {
    if fuel > 0 {
      StepZeroIff(0);
      var p := Candidate(lib, 0);
      assert p == Point(-1.0, -1.0, -1.0);
      assert LengthSquared(p) == 3.0;
      ZeroStateNeverSamples(lib, fuel - 1);
    }
  }

  /** A rejected candidate leaves the outcome to the remaining attempts. */
  lemma RejectedCandidate(lib: Lib, s: bv64, fuel: nat)
    requires lib.Valid() && fuel > 0 && LengthSquared(Candidate(lib, s)) >= 1.0
    ensures var rest := UnitSphere(lib, Xorshift(Xorshift(Xorshift(s))), fuel - 1);
      UnitSphere(lib, s, fuel).point == rest.point && UnitSphere(lib, s, fuel).state == rest.state
  {
  }

  /** An accepted candidate is the outcome, three steps on. */
  lemma AcceptedCandidate(lib: Lib, s: bv64, fuel: nat)
    requires lib.Valid() && fuel > 0 && LengthSquared(Candidate(lib, s)) < 1.0
    ensures UnitSphere(lib, s, fuel).point == Some(Candidate(lib, s))
    ensures UnitSphere(lib, s, fuel).state == Xorshift(Xorshift(Xorshift(s)))
  {
  }

  /** One pass of the do-while body on rng: x, y and z from three draws in turn. */
  method DrawCandidate(lib: Lib, rng: CompileTimeRandom) returns (q: Point)
    requires lib.Valid()
    modifies rng
    ensures q == Candidate(lib, old(rng.state))
    ensures rng.state == Xorshift(Xorshift(Xorshift(old(rng.state))))
  {
    var fx := rng.RandomFloat(lib);
    var x := 2.0 * fx - 1.0;
    var fy := rng.RandomFloat(lib);
    var y := 2.0 * fy - 1.0;
    var fz := rng.RandomFloat(lib);
    var z := 2.0 * fz - 1.0;
    q := Point(x, y, z);
  }

  /**
    RandomPointInUnitSphere, with at most `fuel` attempts. Each attempt makes
    three draws on rng; the result and the final state are those of UnitSphere.
  */
  method RandomPointInUnitSphere(lib: Lib, rng: CompileTimeRandom, fuel: nat) returns (p: Option<Point>)
    requires lib.Valid()
    modifies rng
    ensures p == UnitSphere(lib, old(rng.state), fuel).point
    ensures rng.state == UnitSphere(lib, old(rng.state), fuel).state
  {
    ghost var whole := UnitSphere(lib, rng.state, fuel);
    p := None;
    var accepted := false;
    var n := 0;
    while !accepted && n < fuel
      invariant 0 <= n <= fuel
      invariant !accepted ==> p == None
      invariant !accepted ==> UnitSphere(lib, rng.state, fuel - n).point == whole.point
      invariant !accepted ==> UnitSphere(lib, rng.state, fuel - n).state == whole.state
      invariant accepted ==> p == whole.point && rng.state == whole.state
      decreases fuel - n
    {
      ghost var before := rng.state;
      var q := DrawCandidate(lib, rng);
      var lengthSquared := LengthSquared(q);
      if lengthSquared < 1.0 {
        AcceptedCandidate(lib, before, fuel - n);
        accepted := true;
        p := Some(q);
      } else {
        RejectedCandidate(lib, before, fuel - n);
      }
      n := n + 1;
    }
  }
}
