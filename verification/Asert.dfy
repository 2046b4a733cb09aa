/** The difficulty rule: the aserti3-2d schedule, anchored at genesis, in exact integer arithmetic. */
module Asert {
  import opened Arith
  import opened Digits
  import opened Feerate
  import opened Primitives
  import opened Targets
  import opened Wides
  import opened Works

  const RADIX: nat := 0x1_0000
  const RADIX_BITS: nat := 16
  const EXPONENT_SATURATION: int := 0x1_0000_0000
  const TIME_BOUND: int := 0x2000_0000_0000_0000
  const COUNT_BOUND: int := 0x8000_0000
  const HALF_LIFE_BOUND: int := 0x4000_0000_0000_0000

  /** When the schedule starts, how far apart its blocks are, and how far behind doubles the target. */
  datatype Plan = Plan(anchorTime: int, spacing: int, halfLife: int)

  function Clamp(x: int, low: int, high: int): int {
    if x < low then low else if x > high then high else x
  }

  // --- What the rule computes ---

  function Square(f: nat): nat {
    Summed(f, f)
  }

  function Cube(f: nat): nat {
    Summed(Summed(f, f), f)
  }

  function Cubic(f: nat): nat {
    195766423245049 * f + 971821376 * Square(f) + 5127 * Cube(f) + 0x8000_0000_0000
  }

  /** The published approximation of 2^(f / 2^16), scaled by 2^16. */
  function Factor(f: nat): nat {
    RADIX + Cubic(f) / 0x1_0000_0000_0000
  }

  /** How many seconds the chain is behind its schedule. */
  function Deviation(heightDelta: int, tipTime: int, plan: Plan): int {
    Clamp(tipTime, -TIME_BOUND, TIME_BOUND) - Clamp(plan.anchorTime, -TIME_BOUND, TIME_BOUND)
    - Clamp(plan.spacing, 1, COUNT_BOUND) * Clamp(heightDelta, 1, COUNT_BOUND)
  }

  function HalfLife(plan: Plan): (h: nat)
    ensures 1 <= h <= HALF_LIFE_BOUND
  {
    Clamp(plan.halfLife, 1, HALF_LIFE_BOUND)
  }

  /** The deviation in half-lives, with 16 fraction bits, truncated toward zero. */
  function Exponent(deviation: int, halfLife: nat): int
    requires halfLife > 0
  {
    if deviation < 0 then -((-deviation) * RADIX / halfLife) else deviation * RADIX / halfLife
  }

  /** As far behind as ahead, the exponent is the same but for its sign; it is the deviation over the half-life,
      in units of 2^-16, to within one unit and never past it. */
  lemma ExponentMeans(deviation: int, halfLife: nat)
    requires halfLife > 0 && deviation >= 0
    ensures Exponent(-deviation, halfLife) == -Exponent(deviation, halfLife)
    ensures var e := Exponent(deviation, halfLife);
            halfLife * e <= deviation * 65536 < halfLife * e + halfLife
  {
    DivBounds(deviation * RADIX, halfLife, deviation * RADIX / halfLife);
  }

  /** 2^k as a fraction. */
  function Num(k: int): (r: nat)
    ensures r > 0
  {
    if k >= 0 then Pow(2, k) else 1
  }

  function Den(k: int): (r: nat)
    ensures r > 0
  {
    if k >= 0 then 1 else Pow(2, -k)
  }

  /** floor(a * Factor(e mod 2^16) * 2^(e div 2^16) / 2^16). */
  function Ideal(a: nat, e: int): nat {
    Scaled(a, Factor(e % RADIX), Num(e / RADIX), Den(e / RADIX))
  }

  function Scaled(a: nat, factor: nat, num: nat, den: nat): nat
    requires den > 0
  {
    var x: nat := a * factor * num;
    ModAtMost(x, RADIX * den);
    x / (RADIX * den)
  }

  /** The target the next block must meet. */
  function NextTarget(anchor: nat, limit: nat, heightDelta: int, tipTime: int, plan: Plan): int {
    if heightDelta <= 0 then anchor
    else Clamp(Ideal(anchor, Exponent(Deviation(heightDelta, tipTime, plan), HalfLife(plan))), 1, limit)
  }

  // --- The factor ---

  /** Each step is taken modulo 2^64. */
  function FractionFactor(f: u64): nat {
    var linear := Wrap64(195766423245049 * f);
    var quadratic := Wrap64(Wrap64(971821376 * f) * f);
    var cubic := Wrap64(Wrap64(Wrap64(5127 * f) * f) * f);
    var polynomial := Wrap64(Wrap64(Wrap64(linear + quadratic) + cubic) + 0x8000_0000_0000);
    Wrap64(RADIX + polynomial / 0x1_0000_0000_0000)
  }

  lemma Unwrapped(x: int)
    requires 0 <= x < TWO64
    ensures Wrap64(x) == x
  {
    DivModUnique(x, TWO64, 0, x);
  }

  lemma PowersAre(f: nat)
    ensures Square(f) == f * f && Cube(f) == f * f * f
  {
    SummedIs(f, f);
    SummedIs(f * f, f);
  }

  lemma PowersMono(f: nat, g: nat)
    requires f <= g
    ensures Square(f) <= Square(g) && Cube(f) <= Cube(g)
  {
    hide Square, Cube;
    PowersAre(f);
    PowersAre(g);
    MulMono(f, f, g);
    MulMono(g, f, g);
    MulMono(f * f, f, g);
    MulMono(g, f * f, g * g);
  }

  lemma PowersFit(f: nat)
    requires f < RADIX
    ensures Square(f) <= 4294836225 && Cube(f) <= 281462092005375
  {
    hide Square, Cube;
    PowersMono(f, RADIX - 1);
    PowersAre(RADIX - 1);
  }

  /** Nothing wraps: at the largest fraction the polynomial still fits 64 bits. */
  lemma FractionFactorExact(f: u64)
    requires f < RADIX
    ensures FractionFactor(f) == Factor(f)
  {
    hide Wrap64, Square, Cube;
    var l, q, c := 195766423245049 * f, 971821376 * Square(f), 5127 * Cube(f);
    PowersFit(f);
    CubicFits(f, Square(f), Cube(f));
    Unwrapped(l);
    QuadraticExact(f);
    CubicExact(f);
    Unwrapped(l + q);
    Unwrapped(l + q + c);
    Unwrapped(Cubic(f));
    FactorBounds(f);
    Unwrapped(Factor(f));
  }

  lemma QuadraticExact(f: nat)
    requires f < RADIX
    ensures Wrap64(Wrap64(971821376 * f) * f) == 971821376 * Square(f)
  {
    hide Wrap64, Square, Cube;
    PowersAre(f);
    PowersFit(f);
    Unwrapped(971821376 * f);
    MulAssoc(971821376, f, f);
    Unwrapped(971821376 * (f * f));
  }

  lemma CubicExact(f: nat)
    requires f < RADIX
    ensures Wrap64(Wrap64(Wrap64(5127 * f) * f) * f) == 5127 * Cube(f)
  {
    hide Wrap64, Square, Cube;
    PowersAre(f);
    PowersFit(f);
    Unwrapped(5127 * f);
    MulAssoc(5127, f, f);
    Unwrapped(5127 * (f * f));
    MulAssoc(5127, f * f, f);
    Unwrapped(5127 * (f * f * f));
  }

  lemma CubicFits(f: nat, square: nat, cube: nat)
    requires f < RADIX && square <= 4294836225 && cube <= 281462092005375
    ensures 195766423245049 * f + 971821376 * square + 5127 * cube + 0x8000_0000_0000 <= 18446563080438344768
  {
  }

  /** Between one and two, growing, and meeting itself one octave up. */
  lemma FactorBounds(f: nat)
    requires f < RADIX
    ensures RADIX <= Factor(f) < 2 * RADIX && Factor(0) == RADIX
  {
    PowersFit(f);
    CubicFits(f, Square(f), Cube(f));
    DivBetween(Cubic(f), 0x1_0000_0000_0000, 0, RADIX);
  }

  lemma FactorNext(f: nat)
    ensures Factor(f) <= Factor(f + 1)
  {
    PowersMono(f, f + 1);
    DivMono(Cubic(f), Cubic(f + 1), 0x1_0000_0000_0000);
  }

  // --- The exponent ---

  /** Truncating division of an 80-bit numerator, one bit at a time, stopping at the saturation point. */
  method ScaledQuotient(high: u64, divisor: u64) returns (quotient: nat)
    ensures 0 < divisor <= HALF_LIFE_BOUND ==>
              var exact := high * RADIX / divisor;
              quotient == if exact >= EXPONENT_SATURATION then EXPONENT_SATURATION else exact
    ensures !(0 < divisor <= HALF_LIFE_BOUND) ==> quotient == EXPONENT_SATURATION
  {
    hide Pow;
    if divisor == 0 || divisor > HALF_LIFE_BOUND {
      return EXPONENT_SATURATION;
    }
    ghost var n := high * RADIX;
    NumeratorFits(high);
    var remainder := 0;
    quotient := 0;
    var bit := 80;
    while bit > 0
      invariant 0 <= bit <= 80 && 0 <= remainder < divisor && 0 <= quotient < EXPONENT_SATURATION
      invariant n / Pow(2, bit) == divisor * quotient + remainder
    {
      bit := bit - 1;
      var numeratorBit := if bit >= 16 then (high / Pow(2, bit - 16)) % 2 else 0;
      NumeratorBit(high, bit);
      assert remainder * 2 + numeratorBit < TWO64;
      remainder := remainder * 2 + numeratorBit;
      var quotientBit := 0;
      if remainder >= divisor {
        remainder := remainder - divisor;
        quotientBit := 1;
      }
      QuotientStep(divisor, quotient, quotientBit);
      quotient := quotient * 2 + quotientBit;
      if quotient >= EXPONENT_SATURATION {
        SaturatesEarly(n, bit, divisor, quotient, remainder);
        return EXPONENT_SATURATION;
      }
    }
    PowZero(2);
    assert n / 1 == n;
    DivModUnique(n, divisor, quotient, remainder);
  }

  lemma NumeratorFits(high: u64)
    ensures high * RADIX / Pow(2, 80) == 0
  {
    hide Pow;
    WordPower();
    PowAdd(2, LIMB_BITS, RADIX_BITS);
    RadixPower();
    DivModUnique(high * RADIX, Pow(2, 80), 0, high * RADIX);
  }

  lemma RadixPower()
    ensures Pow(2, RADIX_BITS) == RADIX
  {
    assert Pow(2, 8) == 256;
    PowAdd(2, 8, 8);
  }

  lemma NumeratorBit(high: nat, bit: nat)
    ensures var n := high * RADIX;
            var b := if bit >= 16 then (high / Pow(2, bit - 16)) % 2 else 0;
            n / Pow(2, bit) == 2 * (n / Pow(2, bit + 1)) + b
  {
    hide Pow;
    HalveStep(high * RADIX, bit);
    BitOfNumerator(high, bit);
  }

  lemma HalveStep(n: nat, bit: nat)
    ensures n / Pow(2, bit) == 2 * (n / Pow(2, bit + 1)) + (n / Pow(2, bit)) % 2
  {
    hide Pow;
    PowNext(2, bit);
    DivDiv(n, Pow(2, bit), 2);
    assert Pow(2, bit) * 2 == Pow(2, bit + 1);
  }

  /** The bits of the scaled numerator are the bits of `high`, with sixteen zeros below. */
  lemma BitOfNumerator(high: nat, bit: nat)
    ensures (high * RADIX / Pow(2, bit)) % 2 == if bit >= 16 then (high / Pow(2, bit - 16)) % 2 else 0
  {
    hide Pow;
    RadixPower();
    if bit >= 16 {
      PowAdd(2, RADIX_BITS, bit - 16);
      DivCancel(high, RADIX, Pow(2, bit - 16));
      assert RADIX * high == high * RADIX;
    } else {
      PowAdd(2, bit, 16 - bit);
      PowNext(2, 15 - bit);
      EvenBelow(high, Pow(2, bit), Pow(2, 15 - bit));
    }
  }

  lemma EvenBelow(high: nat, p: nat, half: nat)
    requires p > 0 && p * (2 * half) == RADIX
    ensures high * RADIX / p == 2 * (high * half)
  {
    MulAssoc(p, 2, high * half);
    assert high * (p * (2 * half)) == p * (2 * (high * half));
    DivModUnique(high * RADIX, p, 2 * (high * half), 0);
  }

  lemma QuotientStep(divisor: int, quotient: int, b: int)
    ensures divisor * (quotient * 2 + b) == 2 * (divisor * quotient) + divisor * b
    ensures divisor * 0 == 0 && divisor * 1 == divisor
  {
  }

  /** Bits still to come can only make the quotient larger. */
  lemma SaturatesEarly(n: nat, bit: nat, divisor: nat, quotient: nat, remainder: nat)
    requires divisor > 0 && n / Pow(2, bit) == divisor * quotient + remainder && quotient >= EXPONENT_SATURATION
    ensures n / divisor >= EXPONENT_SATURATION
  {
    hide Pow;
    ModAtMost(n, Pow(2, bit));
    MulAtLeast(n / Pow(2, bit), Pow(2, bit));
    DivMono(divisor * quotient, n, divisor);
    DivModUnique(divisor * quotient, divisor, quotient, 0);
  }

  // --- Saturation and monotonicity ---

  /** A fraction no greater gives a floor no greater. */
  lemma DivCross(x: nat, y: nat, z: nat, w: nat)
    requires y > 0 && w > 0 && x * w <= z * y
    ensures x / y <= z / w
  {
    var q := x / y;
    ModAtMost(x, y);
    MulMono(w, y * q, x);
    assert w * (y * q) == y * (q * w);
    assert w * x == x * w;
    Cancel(q * w, z, y);
    assert (q * w) * y == y * (q * w);
    DivMono(q * w, z, w);
    DivModUnique(q * w, w, q, 0);
  }

  /** One step up the fixed-point scale never lowers the target, the octave boundary included. */
  lemma IdealStep(a: nat, e: int)
    ensures Ideal(a, e) <= Ideal(a, e + 1)
  {
    hide Pow, Factor;
    var k, f := e / RADIX, e % RADIX;
    if f < RADIX - 1 {
      DivModUnique(e + 1, RADIX, k, f + 1);
      FactorNext(f);
      MulMono(a, Factor(f), Factor(f + 1));
      MulMono(Num(k), a * Factor(f), a * Factor(f + 1));
      DivMono(a * Factor(f) * Num(k), a * Factor(f + 1) * Num(k), RADIX * Den(k));
    } else {
      DivModUnique(e + 1, RADIX, k + 1, 0);
      FactorBounds(f);
      NextOctave(k);
      OctaveStep(a, Factor(f), Num(k), Den(k), Num(k + 1), Den(k + 1));
      DivCross(a * Factor(f) * Num(k), RADIX * Den(k), a * Factor(0) * Num(k + 1), RADIX * Den(k + 1));
    }
  }

  lemma NextOctave(k: int)
    ensures 2 * (Num(k) * Den(k + 1)) == Num(k + 1) * Den(k)
  {
    hide Pow;
    PowZero(2);
    if k >= 0 {
      PowNext(2, k);
    } else {
      PowNext(2, -k - 1);
    }
  }

  lemma OctaveStep(a: nat, factor: nat, num: nat, den: nat, num': nat, den': nat)
    requires factor <= 2 * RADIX && 2 * (num * den') == num' * den
    ensures a * factor * num * (RADIX * den') <= a * RADIX * num' * (RADIX * den)
  {
    MulMono(a * (num * den'), factor, 2 * RADIX);
    assert a * factor * num * (RADIX * den') == RADIX * (a * (num * den') * factor);
    assert a * RADIX * num' * (RADIX * den) == RADIX * (a * (num' * den) * RADIX);
    assert a * (num' * den) == 2 * (a * (num * den'));
  }

  lemma {:induction false} IdealMono(a: nat, e: int, e': int)
    requires e <= e'
    ensures Ideal(a, e) <= Ideal(a, e')
    decreases e' - e
  {
    hide Ideal;
    if e < e' {
      IdealStep(a, e);
      IdealMono(a, e + 1, e');
    }
  }

  /** Far enough behind, the target is past any limit. */
  lemma IdealHuge(a: nat, e: int)
    requires a > 0 && e >= EXPONENT_SATURATION
    ensures Ideal(a, e) >= Limit()
  {
    hide Pow, Factor, Limit;
    var k, f := e / RADIX, e % RADIX;
    FactorBounds(f);
    DivBetween(e, RADIX, 257, k + 1);
    LimitPower();
    PowMono(2, 8 * SIZE, k);
    MulMono(a, RADIX, Factor(f));
    MulAtLeast(RADIX, a);
    MulMono(Num(k), RADIX, a * Factor(f));
    DivMono(RADIX * Num(k), a * Factor(f) * Num(k), RADIX);
    DivModUnique(RADIX * Num(k), RADIX, Num(k), 0);
  }

  lemma LimitPower()
    ensures Limit() == Pow(2, 8 * SIZE)
  {
    hide Pow;
    BytePower(SIZE);
  }

  /** Far enough ahead, nothing is left of it. */
  lemma IdealTiny(a: nat, e: int)
    requires a < Limit() && e <= -EXPONENT_SATURATION
    ensures Ideal(a, e) == 0
  {
    hide Pow, Factor, Limit;
    var k, f := e / RADIX, e % RADIX;
    FactorBounds(f);
    DivMono(e, -EXPONENT_SATURATION, RADIX);
    DivModUnique(-EXPONENT_SATURATION, RADIX, -0x1_0000, 0);
    LimitPower();
    PowNext(2, 8 * SIZE);
    PowMono(2, 8 * SIZE + 1, -k);
    MulMono(a, Factor(f), 2 * RADIX);
    DivModUnique(a * Factor(f) * 1, RADIX * Den(k), 0, a * Factor(f));
  }

  /** Saturating the exponent never changes the answer. */
  lemma SaturationIsHarmless(a: nat, limit: nat, e: int)
    requires 0 < a <= limit < Limit()
    ensures Clamp(Ideal(a, Clamp(e, -EXPONENT_SATURATION, EXPONENT_SATURATION)), 1, limit)
         == Clamp(Ideal(a, e), 1, limit)
  {
    hide Ideal, Limit;
    if e > EXPONENT_SATURATION {
      IdealHuge(a, e);
      IdealHuge(a, EXPONENT_SATURATION);
    }
    if e < -EXPONENT_SATURATION {
      IdealTiny(a, e);
      IdealTiny(a, -EXPONENT_SATURATION);
    }
  }

  lemma ExponentMono(d: int, d': int, halfLife: nat)
    requires halfLife > 0 && d <= d'
    ensures Exponent(d, halfLife) <= Exponent(d', halfLife)
  {
    if d < 0 && d' < 0 {
      DivMono((-d') * RADIX, (-d) * RADIX, halfLife);
    } else if d >= 0 {
      DivMono(d * RADIX, d' * RADIX, halfLife);
    } else {
      DivMono(0, (-d) * RADIX, halfLife);
      DivMono(0, d' * RADIX, halfLife);
      DivModUnique(0, halfLife, 0, 0);
    }
  }

  lemma DeviationMono(height: int, tip: int, height': int, tip': int, plan: Plan)
    requires height >= height' && tip <= tip'
    ensures Deviation(height, tip, plan) <= Deviation(height', tip', plan)
  {
    MulMono(Clamp(plan.spacing, 1, COUNT_BOUND), Clamp(height', 1, COUNT_BOUND), Clamp(height, 1, COUNT_BOUND));
  }

  // --- The theorems ---

  /** Never zero, never easier than the floor. */
  lemma NextTargetBounds(anchor: nat, limit: nat, heightDelta: int, tipTime: int, plan: Plan)
    requires 0 < anchor <= limit
    ensures 1 <= NextTarget(anchor, limit, heightDelta, tipTime, plan) <= limit
  {
  }

  /** A later tip never makes the next block harder, and a higher one never makes it easier. What the header
      carries, read back, keeps that order. */
  lemma NextTargetMono(anchor: nat, limit: nat, height: int, tip: int, height': int, tip': int, plan: Plan)
    requires 0 < anchor <= limit && height >= height' >= 1 && tip <= tip'
    ensures var t, t' := NextTarget(anchor, limit, height, tip, plan), NextTarget(anchor, limit, height', tip', plan);
            0 < t <= t' && Round(t) <= Round(t')
  {
    hide Ideal, Exponent, Deviation, Round;
    DeviationMono(height, tip, height', tip', plan);
    var d, d' := Deviation(height, tip, plan), Deviation(height', tip', plan);
    ExponentMono(d, d', HalfLife(plan));
    IdealMono(anchor, Exponent(d, HalfLife(plan)), Exponent(d', HalfLife(plan)));
    RoundMonotone(NextTarget(anchor, limit, height, tip, plan), NextTarget(anchor, limit, height', tip', plan));
  }

  /** The bits a header must carry are canonical, and stand for the target rounded down: never zero and
      never easier than the floor. */
  lemma NextBitsDecode(anchor: nat, limit: nat, heightDelta: int, tipTime: int, plan: Plan)
    requires 0 < anchor <= limit < Limit()
    ensures var t := NextTarget(anchor, limit, heightDelta, tipTime, plan);
            t > 0 && Encodes(Compact(t), Round(t)) && 0 < Round(t) <= limit
  {
    hide Encodes, Compact, Round, Limit, NextTarget;
    NextTargetBounds(anchor, limit, heightDelta, tipTime, plan);
    RoundIsEncoded(NextTarget(anchor, limit, heightDelta, tipTime, plan));
  }

  /** A whole number of half-lives is that number of octaves. */
  lemma ExponentWhole(m: int, halfLife: nat)
    requires halfLife > 0
    ensures Exponent(m * halfLife, halfLife) == m * RADIX
  {
    hide Factor;
    assert m * halfLife * RADIX == halfLife * (m * RADIX);
    assert (-(m * halfLife)) * RADIX == halfLife * (-m * RADIX);
    if m >= 0 {
      MulMono(halfLife, 0, m);
      DivModUnique(m * halfLife * RADIX, halfLife, m * RADIX, 0);
    } else {
      MulMono(halfLife, 1, -m);
      assert m * halfLife == -(halfLife * -m);
      DivModUnique((-(m * halfLife)) * RADIX, halfLife, -m * RADIX, 0);
    }
  }

  /** Every octave up doubles the target exactly, and every one down halves it; with none it is the anchor's. */
  lemma WholeHalfLives(a: nat, m: int)
    ensures Ideal(a, m * RADIX) == if m >= 0 then a * Pow(2, m) else a / Pow(2, -m)
  {
    hide Pow, Factor;
    DivModUnique(m * RADIX, RADIX, m, 0);
    FactorBounds(0);
    if m >= 0 {
      assert a * RADIX * Pow(2, m) == RADIX * (a * Pow(2, m));
      DivModUnique(a * RADIX * Pow(2, m), RADIX, a * Pow(2, m), 0);
    } else {
      assert a * RADIX * 1 == RADIX * a;
      DivCancel(a, RADIX, Pow(2, -m));
    }
  }

  // --- The code ---

  /** One combined shift divides by the radix and applies the whole octaves. */
  lemma IdealByShift(a: nat, e: int)
    ensures var shift := e / RADIX - RADIX_BITS;
            && (shift > 0 ==> Ideal(a, e) == a * Factor(e % RADIX) * Pow(2, shift))
            && (shift <= 0 ==> Ideal(a, e) == a * Factor(e % RADIX) / Pow(2, -shift))
  {
    hide Pow, Factor;
    var k, x := e / RADIX, a * Factor(e % RADIX);
    var shift := k - RADIX_BITS;
    RadixPower();
    if shift > 0 {
      PowAdd(2, shift, RADIX_BITS);
      assert x * (Pow(2, shift) * RADIX) == RADIX * (x * Pow(2, shift));
      DivModUnique(x * Pow(2, k), RADIX, x * Pow(2, shift), 0);
    } else if k >= 0 {
      PowAdd(2, k, -shift);
      DivCancel(x, Pow(2, k), Pow(2, -shift));
      assert x * Pow(2, k) == Pow(2, k) * x;
    } else {
      PowAdd(2, RADIX_BITS, -k);
      assert x * 1 == x;
    }
  }

  /** Scales a target in place; says when it went past 320 bits. */
  method ScaleTarget(target: array<u64>, exponent: int) returns (tooBig: bool)
    requires target.Length == LIMB_COUNT && 0 < ValueOf(target[..]) < Limit()
    modifies target
    ensures var a := old(ValueOf(target[..]));
            && (tooBig ==> Ideal(a, exponent) >= Limit())
            && (!tooBig ==> ValueOf(target[..]) == Ideal(a, exponent))
  {
    hide Pow, Factor, Ideal, FractionFactor, ValueOf, Limit;
    ghost var a := ValueOf(target[..]);
    var integerShift, fraction := exponent / RADIX, exponent % RADIX;
    var factor := FractionFactor(fraction);
    FractionFactorExact(fraction);
    FactorBounds(fraction);
    ProductRoom(a, factor);
    IdealByShift(a, exponent);
    var multipliedOverflow := MultiplySmall(target, factor);
    var shift := integerShift - RADIX_BITS;
    if shift > 0 {
      var shiftedOverflow := Wides.ShiftLeft(target, shift);
      if shiftedOverflow || multipliedOverflow {
        return true;
      }
    } else if shift < 0 {
      Wides.ShiftRight(target, -shift);
    } else {
      PowZero(2);
      assert a * factor / 1 == a * factor;
    }
    return false;
  }

  lemma ProductRoom(a: nat, factor: nat)
    requires a < Limit() && factor < 2 * RADIX
    ensures a * factor < Pow(TWO64, LIMB_COUNT) && Limit() <= Pow(TWO64, LIMB_COUNT)
  {
    hide Pow, Limit;
    LimitIsFourLimbs();
    PowNext(TWO64, 4);
    MulMono(a, factor, 2 * RADIX);
  }

  method AsertNextBits(anchorBits: nat, heightDelta: int, tipTime: int, powLimitBits: nat, plan: Plan)
    returns (bits: nat)
    requires FitsInt64(heightDelta) && FitsInt64(tipTime)
    requires FitsInt64(plan.anchorTime) && FitsInt64(plan.spacing) && FitsInt64(plan.halfLife)
    ensures forall limit, anchor :: Encodes(powLimitBits, limit) && Encodes(anchorBits, anchor) ==>
              var a := if anchor > limit then limit else anchor;
              var t := NextTarget(a, limit, heightDelta, tipTime, plan);
              t > 0 && bits == Compact(t)
    ensures ((forall limit :: !Encodes(powLimitBits, limit)) || (forall anchor :: !Encodes(anchorBits, anchor))) ==>
              bits == powLimitBits
  {
    hide Encodes, BigEndian, ValueOf, Compact, Limit, Ideal, Exponent;
    var floorTarget := CompactToTarget(powLimitBits);
    var anchorTarget := CompactToTarget(anchorBits);
    if floorTarget.None? || anchorTarget.None? {
      return powLimitBits;
    }
    ghost var limit0, anchor0 := BigEndian(floorTarget.value[..]), BigEndian(anchorTarget.value[..]);
    OnlyOne(powLimitBits, limit0);
    OnlyOne(anchorBits, anchor0);
    var limit := FromTarget(floorTarget.value);
    var target := FromTarget(anchorTarget.value);
    var above := Exceeds(target, limit);
    if above {
      target := limit;
    }
    ghost var a := ValueOf(target[..]);
    assert a == if anchor0 > limit0 then limit0 else anchor0;
    NextTargetBounds(a, limit0, heightDelta, tipTime, plan);
    if heightDelta <= 0 {
      var same := ToTarget(target);
      bits := TargetToCompact(same);
      return;
    }
    var exponent := ScheduleExponent(heightDelta, tipTime, plan);
    SaturationIsHarmless(a, limit0, Exponent(Deviation(heightDelta, tipTime, plan), HalfLife(plan)));
    bits := ClampedBits(target, limit, exponent);
  }

  lemma OnlyOne(bits: nat, t: nat)
    requires Encodes(bits, t)
    ensures 0 < t < Limit() && forall u :: Encodes(bits, u) ==> u == t
  {
    hide Limit;
    forall u | Encodes(bits, u) ensures u == t {
      EncodingUnique(bits, bits, t, u);
    }
  }

  /** The signed fixed-point exponent, saturated; no step leaves 64 bits. */
  method ScheduleExponent(heightDelta: int, tipTime: int, plan: Plan) returns (exponent: int)
    requires heightDelta > 0
    ensures exponent == Clamp(Exponent(Deviation(heightDelta, tipTime, plan), HalfLife(plan)), -EXPONENT_SATURATION,
                              EXPONENT_SATURATION)
  {
    hide Exponent, Clamp;
    ClampBetween(plan.anchorTime, -TIME_BOUND, TIME_BOUND);
    ClampBetween(tipTime, -TIME_BOUND, TIME_BOUND);
    ClampBetween(plan.spacing, 1, COUNT_BOUND);
    ClampBetween(heightDelta, 1, COUNT_BOUND);
    ClampBetween(plan.halfLife, 1, HALF_LIFE_BOUND);
    var origin := Clamp(plan.anchorTime, -TIME_BOUND, TIME_BOUND);
    var observed := Clamp(tipTime, -TIME_BOUND, TIME_BOUND);
    var spacing := Clamp(plan.spacing, 1, COUNT_BOUND);
    var height := Clamp(heightDelta, 1, COUNT_BOUND);
    var timeDelta := observed - origin;
    var expected := spacing * height;
    ExpectedFits(spacing, height);
    var numerator := timeDelta - expected;
    assert FitsInt64(timeDelta) && FitsInt64(expected) && FitsInt64(numerator);
    var magnitude := if numerator < 0 then -numerator else numerator;
    var halfLife := Clamp(plan.halfLife, 1, HALF_LIFE_BOUND);
    var scaled: int := ScaledQuotient(magnitude, halfLife);
    ExponentSigned(numerator, halfLife);
    exponent := if numerator < 0 then -scaled else scaled;
    ClampSigned(magnitude * RADIX / halfLife, numerator < 0);
  }

  lemma ClampBetween(x: int, low: int, high: int)
    requires low <= high
    ensures low <= Clamp(x, low, high) <= high
  {
  }

  lemma ClampSigned(size: int, negative: bool)
    requires size >= 0
    ensures var scaled := if size >= EXPONENT_SATURATION then EXPONENT_SATURATION else size;
            Clamp(if negative then -size else size, -EXPONENT_SATURATION, EXPONENT_SATURATION)
              == if negative then -scaled else scaled
  {
  }

  lemma ExponentSigned(deviation: int, halfLife: nat)
    requires halfLife > 0
    ensures var size := (if deviation < 0 then -deviation else deviation) * RADIX / halfLife;
            size >= 0 && Exponent(deviation, halfLife) == if deviation < 0 then -size else size
  {
    DivMono(0, (if deviation < 0 then -deviation else deviation) * RADIX, halfLife);
    DivModUnique(0, halfLife, 0, 0);
  }

  lemma ExpectedFits(spacing: int, height: int)
    requires 1 <= spacing <= COUNT_BOUND && 1 <= height <= COUNT_BOUND
    ensures 1 <= spacing * height <= COUNT_BOUND * COUNT_BOUND
  {
    MulMono(spacing, height, COUNT_BOUND);
    MulMono(COUNT_BOUND, spacing, COUNT_BOUND);
    MulMono(spacing, 1, height);
  }

  method ClampedBits(target: array<u64>, limit: array<u64>, exponent: int) returns (bits: nat)
    requires target.Length == LIMB_COUNT && limit.Length == LIMB_COUNT
    requires 0 < ValueOf(target[..]) <= ValueOf(limit[..]) < Limit()
    modifies target
    ensures var t := Clamp(old(Ideal(ValueOf(target[..]), exponent)), 1, old(ValueOf(limit[..])));
            t > 0 && bits == Compact(t)
  {
    hide BigEndian, ValueOf, Compact, Limit, Ideal;
    // A copy, because the target may be the limit itself.
    var floor' := new u64[LIMB_COUNT];
    forall i | 0 <= i < LIMB_COUNT {
      floor'[i] := limit[i];
    }
    assert floor'[..] == old(limit[..]) && target[..] == old(target[..]);
    var tooBig := ScaleTarget(target, exponent);
    if tooBig {
      var easiest := ToTarget(floor');
      bits := TargetToCompact(easiest);
      return;
    }
    var zero := IsZero(target);
    if zero {
      var hardest := FromSmall(1);
      bits := TargetToCompact(hardest);
      return;
    }
    var above := Exceeds(target, floor');
    if above {
      var easiest := ToTarget(floor');
      bits := TargetToCompact(easiest);
      return;
    }
    var next := ToTarget(target);
    bits := TargetToCompact(next);
  }
}
