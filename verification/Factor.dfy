/** The factor behaves like a power of two: the product of two factors is the factor of the sum, and the factor
    of a whole is two, each within a few parts in ten thousand. */
module FactorLaws {
  import opened Arith
  import opened Asert

  const LINEAR: int := 195766423245049
  const QUADRATIC: int := 971821376
  const CUBIC: int := 5127
  const SCALE: int := 0x1_0000_0000_0000
  const HALF: int := 0x8000_0000_0000
  /** One, at the scale of the curve. */
  const ONE: int := 0x1_0000_0000_0000_0000

  /** The curve before it is rounded. */
  function Curve(x: nat): nat {
    ONE + LINEAR * x + QUADRATIC * Square(x) + CUBIC * Cube(x)
  }

  // --- How far the curve is from multiplying ---

  function Slope(sum: nat): int {
    (LINEAR * LINEAR - 2 * ONE * QUADRATIC) + (LINEAR * QUADRATIC - 3 * ONE * CUBIC) * sum
    + LINEAR * CUBIC * Square(sum)
  }

  function Bend(sum: int): int {
    (2 * LINEAR * CUBIC - QUADRATIC * QUADRATIC) - QUADRATIC * CUBIC * sum
  }

  /** What the product of two points of the curve has over the point of their sum. */
  function Gap(sum: nat, product: nat): int {
    (LINEAR * LINEAR - 2 * ONE * QUADRATIC) * product
    + (LINEAR * QUADRATIC - 3 * ONE * CUBIC) * Summed(product, sum)
    + LINEAR * CUBIC * Summed(product, Square(sum))
    - (2 * LINEAR * CUBIC - QUADRATIC * QUADRATIC) * Square(product)
    + QUADRATIC * CUBIC * Summed(Square(product), sum)
    + CUBIC * CUBIC * Cube(product)
  }

  lemma Expanded(k: int, p: int, q: int, r: int, u: int, v: int, w: int)
    ensures (k + p + q + r) * (k + u + v + w)
         == k * k + k * (p + u) + k * (q + v) + k * (r + w)
            + p * u + (p * v + q * u) + (p * w + r * u) + q * v + (q * w + r * v) + r * w
  {
  }

  lemma Coefficients(a: int, b: int, x: int, y: int)
    ensures (a * x) * (b * y) == (a * b) * (x * y)
  {
  }

  lemma PowersTogether(x: nat, y: nat)
    ensures Square(x) + Square(y) == Square(x + y) - 2 * (x * y)
    ensures Cube(x) + Cube(y) == Cube(x + y) - 3 * ((x * y) * (x + y))
  {
    hide Square, Cube;
    PowersAre(x);
    PowersAre(y);
    PowersAre(x + y);
    SumsOfPowers(x, y);
  }

  lemma SumsOfPowers(x: int, y: int)
    ensures x * x + y * y == (x + y) * (x + y) - 2 * (x * y)
    ensures x * x * x + y * y * y == (x + y) * (x + y) * (x + y) - 3 * ((x * y) * (x + y))
  {
  }

  lemma ProductsOfPowers(x: nat, y: nat)
    ensures x * Square(y) + Square(x) * y == (x * y) * (x + y)
    ensures Square(x) * Square(y) == Square(x * y)
    ensures x * Cube(y) + Cube(x) * y == (x * y) * Square(x + y) - 2 * Square(x * y)
    ensures Square(x) * Cube(y) + Cube(x) * Square(y) == Square(x * y) * (x + y)
    ensures Cube(x) * Cube(y) == Cube(x * y)
  {
    hide Square, Cube;
    PowersAre(x);
    PowersAre(y);
    PowersAre(x + y);
    PowersAre(x * y);
    LowProducts(x, y);
    MixedProducts(x, y);
    HighProducts(x, y);
  }

  lemma LowProducts(x: int, y: int)
    ensures x * (y * y) + (x * x) * y == (x * y) * (x + y)
    ensures (x * x) * (y * y) == (x * y) * (x * y)
  {
  }

  lemma MixedProducts(x: int, y: int)
    ensures x * (y * y * y) + (x * x * x) * y == (x * y) * ((x + y) * (x + y)) - 2 * ((x * y) * (x * y))
  {
  }

  lemma HighProducts(x: int, y: int)
    ensures (x * x) * (y * y * y) + (x * x * x) * (y * y) == (x * y) * (x * y) * (x + y)
    ensures (x * x * x) * (y * y * y) == (x * y) * (x * y) * (x * y)
  {
  }

  lemma CurveProduct(x: nat, y: nat)
    ensures Summed(Curve(x), Curve(y)) == ONE * Curve(x + y) + Gap(x + y, Summed(x, y))
  {
    hide Square, Cube, Gap, Curve, Summed;
    var sum, product := x + y, x * y;
    SummedIs(x, y);
    SummedIs(Curve(x), Curve(y));
    CurvesExpanded(x, y);
    PowersTogether(x, y);
    ProductsOfPowers(x, y);
    GapExpanded(sum, product);
    CurveIs(sum);
    Collected(sum, Square(sum), Cube(sum), product, product * sum, product * Square(sum), Square(product),
              Square(product) * sum, Cube(product), Curve(x) * Curve(y), Gap(sum, product));
  }

  lemma CurveIs(x: nat)
    ensures Curve(x) == ONE + LINEAR * x + QUADRATIC * Square(x) + CUBIC * Cube(x)
  {
  }

  /** The terms of the product, gathered by what they are multiples of. */
  lemma Collected(sum: int, sum2: int, sum3: int, product: int, cross: int, cross2: int, product2: int, cross3: int,
                  product3: int, whole: int, gap: int)
    requires whole == ONE * ONE + ONE * LINEAR * sum + ONE * QUADRATIC * (sum2 - 2 * product)
                      + ONE * CUBIC * (sum3 - 3 * cross) + LINEAR * LINEAR * product + LINEAR * QUADRATIC * cross
                      + LINEAR * CUBIC * (cross2 - 2 * product2) + QUADRATIC * QUADRATIC * product2
                      + QUADRATIC * CUBIC * cross3 + CUBIC * CUBIC * product3
    requires gap == (LINEAR * LINEAR - 2 * ONE * QUADRATIC) * product + (LINEAR * QUADRATIC - 3 * ONE * CUBIC) * cross
                    + LINEAR * CUBIC * cross2 - (2 * LINEAR * CUBIC - QUADRATIC * QUADRATIC) * product2
                    + QUADRATIC * CUBIC * cross3 + CUBIC * CUBIC * product3
    ensures whole == ONE * (ONE + LINEAR * sum + QUADRATIC * sum2 + CUBIC * sum3) + gap
  {
  }

  lemma CurvesExpanded(x: nat, y: nat)
    ensures Curve(x) * Curve(y)
         == ONE * ONE + ONE * LINEAR * (x + y) + ONE * QUADRATIC * (Square(x) + Square(y))
            + ONE * CUBIC * (Cube(x) + Cube(y)) + LINEAR * LINEAR * (x * y)
            + LINEAR * QUADRATIC * (x * Square(y) + Square(x) * y) + LINEAR * CUBIC * (x * Cube(y) + Cube(x) * y)
            + QUADRATIC * QUADRATIC * (Square(x) * Square(y))
            + QUADRATIC * CUBIC * (Square(x) * Cube(y) + Cube(x) * Square(y)) + CUBIC * CUBIC * (Cube(x) * Cube(y))
  {
    hide Square, Cube;
    var p, q, r := LINEAR * x, QUADRATIC * Square(x), CUBIC * Cube(x);
    var u, v, w := LINEAR * y, QUADRATIC * Square(y), CUBIC * Cube(y);
    Expanded(ONE, p, q, r, u, v, w);
    Coefficients(LINEAR, LINEAR, x, y);
    Coefficients(LINEAR, QUADRATIC, x, Square(y));
    Coefficients(QUADRATIC, LINEAR, Square(x), y);
    Coefficients(LINEAR, CUBIC, x, Cube(y));
    Coefficients(CUBIC, LINEAR, Cube(x), y);
    Coefficients(QUADRATIC, QUADRATIC, Square(x), Square(y));
    Coefficients(QUADRATIC, CUBIC, Square(x), Cube(y));
    Coefficients(CUBIC, QUADRATIC, Cube(x), Square(y));
    Coefficients(CUBIC, CUBIC, Cube(x), Cube(y));
  }

  lemma GapExpanded(sum: nat, product: nat)
    ensures Gap(sum, product)
         == (LINEAR * LINEAR - 2 * ONE * QUADRATIC) * product
            + (LINEAR * QUADRATIC - 3 * ONE * CUBIC) * (product * sum)
            + LINEAR * CUBIC * (product * Square(sum))
            - (2 * LINEAR * CUBIC - QUADRATIC * QUADRATIC) * Square(product)
            + QUADRATIC * CUBIC * (Square(product) * sum)
            + CUBIC * CUBIC * Cube(product)
  {
    hide Square, Cube, Summed;
    SummedIs(product, sum);
    SummedIs(product, Square(sum));
    SummedIs(Square(product), sum);
  }

  lemma GapFactored(sum: nat, product: nat)
    ensures Gap(sum, product) == product * Slope(sum) - Square(product) * Bend(sum) + CUBIC * CUBIC * Cube(product)
  {
    hide Square, Cube, Gap;
    GapExpanded(sum, product);
  }

  // --- The gap is small ---

  /** Slope is convex, so between two points it stays below the larger end and above its tangent. */
  lemma SlopeBetween(sum: nat, a: nat, b: nat, low: int, high: int)
    requires a <= sum <= b
    requires Slope(a) <= high && Slope(b) <= high
    requires low <= Slope(a) && low <= Slope(a) + Tilt(a) * (b - a)
    ensures low <= Slope(sum) <= high
  {
    hide Square, Value;
    Chord(sum, a, b);
    ValuesAre(sum);
    ValuesAre(a);
    ValuesAre(b);
    ChordBelow(LINEAR * LINEAR - 2 * ONE * QUADRATIC, LINEAR * QUADRATIC - 3 * ONE * CUBIC, LINEAR * CUBIC,
               sum, a, b, Square(sum), Square(a), Square(b), low, high);
  }

  function Tilt(a: int): int {
    (LINEAR * QUADRATIC - 3 * ONE * CUBIC) + LINEAR * CUBIC * (2 * a)
  }

  lemma ValuesAre(x: nat)
    ensures Slope(x) == Value(LINEAR * LINEAR - 2 * ONE * QUADRATIC, LINEAR * QUADRATIC - 3 * ONE * CUBIC,
                              LINEAR * CUBIC, x, Square(x))
  {
  }

  lemma Chord(x: nat, a: nat, b: nat)
    requires a <= x <= b
    ensures Square(x) - Square(a) <= (a + b) * (x - a) && Square(b) - Square(x) >= (a + b) * (b - x)
    ensures Square(x) - Square(a) >= 2 * a * (x - a)
  {
    hide Square, Cube;
    PowersAre(x);
    PowersAre(a);
    PowersAre(b);
    PlainChord(x, a, b);
  }

  lemma PlainChord(x: int, a: int, b: int)
    requires a <= x <= b
    ensures x * x - a * a <= (a + b) * (x - a) && b * b - x * x >= (a + b) * (b - x)
    ensures x * x - a * a >= 2 * a * (x - a)
  {
    assert (x - a) * (b - x) >= 0;
    assert (x - a) * (x - a) >= 0;
  }

  /** `e + d*x + c*x^2` at `x`, with the square given apart. */
  function Value(e: int, d: int, c: int, x: int, xx: int): int {
    e + d * x + c * xx
  }

  lemma ValueMoves(e: int, d: int, c: nat, x: int, xx: int, y: int, yy: int, k: int)
    ensures yy - xx >= k * (y - x) ==> Value(e, d, c, y, yy) >= Value(e, d, c, x, xx) + (d + c * k) * (y - x)
    ensures yy - xx <= k * (y - x) ==> Value(e, d, c, y, yy) <= Value(e, d, c, x, xx) + (d + c * k) * (y - x)
  {
    var step := y - x;
    assert (d + c * k) * step == d * step + c * (k * step);
    assert d * y == d * x + d * step;
    assert c * yy == c * xx + c * (yy - xx);
    if yy - xx >= k * step {
      MulMono(c, k * step, yy - xx);
    }
    if yy - xx <= k * step {
      MulMono(c, yy - xx, k * step);
    }
  }

  lemma ChordBelow(e: int, d: int, c: nat, x: int, a: int, b: int, xx: int, aa: int, bb: int, low: int, high: int)
    requires 0 <= a <= x <= b
    requires xx - aa <= (a + b) * (x - a) && bb - xx >= (a + b) * (b - x) && xx - aa >= 2 * a * (x - a)
    requires Value(e, d, c, a, aa) <= high && Value(e, d, c, b, bb) <= high
    requires low <= Value(e, d, c, a, aa) && low <= Value(e, d, c, a, aa) + (d + c * (2 * a)) * (b - a)
    ensures low <= Value(e, d, c, x, xx) <= high
  {
    ValueMoves(e, d, c, a, aa, x, xx, a + b);
    ValueMoves(e, d, c, x, xx, b, bb, a + b);
    ValueMoves(e, d, c, a, aa, x, xx, 2 * a);
    hide Value;
    NotPast(d + c * (a + b), x - a, b - x);
    NotPast(d + c * (2 * a), x - a, b - a);
  }

  lemma NotPast(rise: int, u: int, v: int)
    requires 0 <= u && 0 <= v
    ensures rise * u <= 0 || rise * v >= 0
    ensures u <= v ==> rise * u >= 0 || rise * u >= rise * v
  {
    if rise >= 0 {
      MulMono(rise, 0, v);
      MulMono(rise, 0, u);
    } else {
      MulMono(-rise, 0, u);
      if u <= v {
        MulMono(-rise, u, v);
      }
    }
  }

  /** What is left of the bend once the cubic term is charged against it. */
  function Grip(b: nat): int {
    4 * Bend(b) - CUBIC * CUBIC * Square(b)
  }

  /** The gap is at most `cap` either way, for every sum between `a` and `b`. */
  predicate Capped(a: nat, b: nat, low: int, high: nat, cap: int) {
    && a <= b && 0 <= cap && Grip(b) > 0 && Bend(b) >= 0
    && Slope(a) <= high && Slope(b) <= high && low <= Slope(a) && low <= Slope(a) + Tilt(a) * (b - a)
    && (Square(b) * high <= 4 * cap || Square(high) <= Grip(b) * cap)
    && Square(b) * (Square(b) * Bend(a) - 4 * low) <= 16 * cap
  }

  lemma BendFalls(x: int, y: int)
    requires x <= y
    ensures Bend(y) <= Bend(x)
  {
  }

  lemma SquareRises(x: nat, y: nat)
    requires x <= y
    ensures Square(x) <= Square(y) && Cube(x) <= Cube(y)
  {
    hide Square, Cube;
    PowersMono(x, y);
  }

  lemma GapAboveBy(s: nat, slope: int, bend: int, least: int, bb: int, high: nat, cap: int)
    requires 0 <= 4 * s <= bb && slope <= high && 0 <= least <= bend && 0 <= high && 0 <= cap
    requires 4 * least - CUBIC * CUBIC * bb > 0
    requires bb * high <= 4 * cap || Square(high) <= (4 * least - CUBIC * CUBIC * bb) * cap
    ensures s * slope - Square(s) * bend + CUBIC * CUBIC * Cube(s) <= cap
  {
    hide Square, Cube;
    var grip := 4 * least - CUBIC * CUBIC * bb;
    var gap := s * slope - Square(s) * bend + CUBIC * CUBIC * Cube(s);
    Charged(s, slope, bend, least, bb, high);
    AtMostCap(s, high, grip, bb, gap, cap);
  }

  /** The cubic term is no more than its share of the bend. */
  lemma Charged(s: nat, slope: int, bend: int, least: int, bb: int, high: int)
    requires 0 <= 4 * s <= bb && slope <= high && least <= bend
    ensures 4 * (s * slope - Square(s) * bend + CUBIC * CUBIC * Cube(s))
         <= 4 * (s * high) - Square(s) * (4 * least - CUBIC * CUBIC * bb)
  {
    hide Square, Cube;
    MulMono(s, slope, high);
    CubeAndSquare(s, bb);
    MulMono(Square(s), least, bend);
    Distribute(Square(s), 4 * least, CUBIC * CUBIC * bb);
    assert Square(s) * (4 * least) == 4 * (Square(s) * least);
    assert Square(s) * (CUBIC * CUBIC * bb) == CUBIC * CUBIC * (Square(s) * bb);
  }

  lemma CubeAndSquare(s: nat, bb: int)
    requires 0 <= 4 * s <= bb
    ensures 0 <= Square(s) && 0 <= 4 * Cube(s) <= Square(s) * bb
  {
    hide Square, Cube;
    PowersAre(s);
    assert Cube(s) == Square(s) * s;
    MulMono(Square(s), 0, s);
    MulMono(Square(s), 4 * s, bb);
  }

  lemma AtMostCap(s: nat, high: nat, grip: int, bb: int, gap: int, cap: int)
    requires 0 <= 4 * s <= bb && 0 <= high && 0 < grip && 0 <= cap
    requires 4 * gap <= 4 * (s * high) - Square(s) * grip
    requires bb * high <= 4 * cap || Square(high) <= grip * cap
    ensures gap <= cap
  {
    hide Square;
    if bb * high <= 4 * cap {
      CubeAndSquare(s, bb);
      AtTheEdge(s, high, grip, bb, gap, cap, Square(s));
    } else {
      Parabola(s, high, grip);
      AtTheVertex(4 * (s * high) - Square(s) * grip, grip, gap, cap, Square(high));
    }
  }

  lemma AtTheEdge(s: int, high: int, grip: int, bb: int, gap: int, cap: int, square: int)
    requires 0 <= 4 * s <= bb && 0 <= high && 0 < grip && 0 <= square
    requires 4 * gap <= 4 * (s * high) - square * grip && bb * high <= 4 * cap
    ensures gap <= cap
  {
    MulMono(high, 4 * s, bb);
    MulMono(square, 0, grip);
  }

  lemma AtTheVertex(top: int, grip: int, gap: int, cap: int, square: int)
    requires 0 < grip && 4 * gap <= top && grip * top <= 4 * square && square <= grip * cap
    ensures gap <= cap
  {
    if gap > cap {
      MulMono(grip, 4 * cap + 4, top);
    }
  }

  /** `4hs - gs^2` is largest at its vertex. */
  lemma Parabola(s: nat, h: nat, g: int)
    requires g > 0
    ensures g * (4 * (s * h) - Square(s) * g) <= 4 * Square(h)
  {
    hide Square, Cube;
    PowersAre(s);
    PowersAre(h);
    Vertex(s, h, g);
  }

  lemma Vertex(s: int, h: int, g: int)
    ensures g * (4 * (s * h) - (s * s) * g) <= 4 * (h * h)
  {
    var d := 2 * h - g * s;
    assert d * d >= 0;
    assert d * d == 4 * (h * h) - 4 * (h * (g * s)) + (g * s) * (g * s);
    assert g * (4 * (s * h)) == 4 * (h * (g * s)) && g * ((s * s) * g) == (g * s) * (g * s);
  }

  lemma GapBelowBy(s: nat, slope: int, bend: int, most: int, bb: int, low: int, cap: int)
    requires 0 <= 4 * s <= bb && low <= slope && 0 <= bend <= most && 0 <= cap
    requires bb * (bb * most - 4 * low) <= 16 * cap
    ensures -cap <= s * slope - Square(s) * bend + CUBIC * CUBIC * Cube(s)
  {
    hide Square, Cube;
    MulMono(s, low, slope);
    CubeAndSquare(s, bb);
    Lacking(s, most, bb, low, cap);
    MulMono(Square(s), bend, most);
  }

  lemma Lacking(s: nat, most: int, bb: int, low: int, cap: int)
    requires 0 <= 4 * s <= bb && 0 <= most && 0 <= cap && bb * (bb * most - 4 * low) <= 16 * cap
    ensures -cap <= s * low - Square(s) * most
  {
    hide Square, Cube;
    PowersAre(s);
    var lack := most * s - low;
    assert s * low - Square(s) * most == -(s * lack);
    MulMono(most, 4 * s, bb);
    LackingBy(s, lack, bb * most - 4 * low, bb, cap);
  }

  lemma LackingBy(s: int, lack: int, whole: int, bb: int, cap: int)
    requires 0 <= 4 * s <= bb && 0 <= cap && 4 * lack <= whole && bb * whole <= 16 * cap
    ensures s * lack <= cap
  {
    if lack > 0 {
      MulMono(4 * s, 4 * lack, whole);
      MulMono(whole, 4 * s, bb);
    } else {
      MulMono(s, lack, 0);
    }
  }

  // --- Piece by piece ---

  const UNIT: int := 1_000_000_000_000_000_000_000_000_000_000_000

  function High(a: nat, b: nat): nat {
    var high := if Slope(a) < Slope(b) then Slope(b) else Slope(a);
    if high < 0 then 0 else high
  }

  function Low(a: nat, b: nat): int {
    if Tilt(a) < 0 then Slope(a) + Tilt(a) * (b - a) else Slope(a)
  }

  /** Over this piece the gap, and all the rounding, stay within `parts` in ten thousand of the curve. */
  predicate Covered(a: nat, b: nat, cap: int, parts: nat) {
    && Capped(a, b, Low(a, b), High(a, b), cap)
    && 10000 * (cap + HALF * HALF + ONE * HALF) + parts * (ONE * HALF)
       <= ONE * Summed(Curve(a), parts) - 20000 * HALF * Curve(a)
  }

  lemma LowPieces()
    ensures Covered(0, 14000, 122 * UNIT, 4)
    ensures Covered(14000, 20500, 143 * UNIT, 4)
    ensures Covered(20500, 25500, 159 * UNIT, 4)
  {
    hide Square, Cube, Summed;
    PowersAre(0);
    PowersAre(14000);
    PowersAre(20500);
    PowersAre(25500);
    PowersAre(High(0, 14000));
    PowersAre(High(14000, 20500));
    PowersAre(High(20500, 25500));
    SummedIs(Curve(0), 4);
    SummedIs(Curve(14000), 4);
    SummedIs(Curve(20500), 4);
  }

  lemma MiddlePieces()
    ensures Covered(25500, 42000, 164 * UNIT, 4)
    ensures Covered(42000, 50500, 196 * UNIT, 4)
    ensures Covered(50500, 54500, 218 * UNIT, 4)
  {
    hide Square, Cube, Summed;
    PowersAre(25500);
    PowersAre(42000);
    PowersAre(50500);
    PowersAre(54500);
    PowersAre(High(25500, 42000));
    PowersAre(High(42000, 50500));
    PowersAre(High(50500, 54500));
    SummedIs(Curve(25500), 4);
    SummedIs(Curve(42000), 4);
    SummedIs(Curve(50500), 4);
  }

  lemma UpperPieces()
    ensures Covered(54500, 56500, 219 * UNIT, 4)
    ensures Covered(56500, 58000, 223 * UNIT, 4)
    ensures Covered(58000, 59500, 230 * UNIT, 4)
  {
    hide Square, Cube, Summed;
    PowersAre(54500);
    PowersAre(56500);
    PowersAre(58000);
    PowersAre(59500);
    PowersAre(High(54500, 56500));
    PowersAre(High(56500, 58000));
    PowersAre(High(58000, 59500));
    SummedIs(Curve(54500), 4);
    SummedIs(Curve(56500), 4);
    SummedIs(Curve(58000), 4);
  }

  lemma HighPieces()
    ensures Covered(59500, 61000, 234 * UNIT, 4)
    ensures Covered(61000, 62500, 233 * UNIT, 4)
    ensures Covered(62500, 64500, 243 * UNIT, 4)
  {
    hide Square, Cube, Summed;
    PowersAre(59500);
    PowersAre(61000);
    PowersAre(62500);
    PowersAre(64500);
    PowersAre(High(59500, 61000));
    PowersAre(High(61000, 62500));
    PowersAre(High(62500, 64500));
    SummedIs(Curve(59500), 4);
    SummedIs(Curve(61000), 4);
    SummedIs(Curve(62500), 4);
  }

  lemma LastPieces()
    ensures Covered(64500, 65536, 193 * UNIT, 4)
    ensures Covered(65536, 65536, 152 * UNIT, 3)
  {
    hide Square, Cube, Summed;
    PowersAre(64500);
    PowersAre(65536);
    PowersAre(High(64500, 65536));
    PowersAre(High(65536, 65536));
    SummedIs(Curve(64500), 4);
    SummedIs(Curve(65536), 3);
  }

  /** The pieces, with how far the curve may be off over each. */
  predicate IsPiece(a: nat, b: nat, cap: int, parts: nat) {
    || (a == 0 && b == 14000 && cap == 122 * UNIT && parts == 4)
    || (a == 14000 && b == 20500 && cap == 143 * UNIT && parts == 4)
    || (a == 20500 && b == 25500 && cap == 159 * UNIT && parts == 4)
    || (a == 25500 && b == 42000 && cap == 164 * UNIT && parts == 4)
    || (a == 42000 && b == 50500 && cap == 196 * UNIT && parts == 4)
    || (a == 50500 && b == 54500 && cap == 218 * UNIT && parts == 4)
    || (a == 54500 && b == 56500 && cap == 219 * UNIT && parts == 4)
    || (a == 56500 && b == 58000 && cap == 223 * UNIT && parts == 4)
    || (a == 58000 && b == 59500 && cap == 230 * UNIT && parts == 4)
    || (a == 59500 && b == 61000 && cap == 234 * UNIT && parts == 4)
    || (a == 61000 && b == 62500 && cap == 233 * UNIT && parts == 4)
    || (a == 62500 && b == 64500 && cap == 243 * UNIT && parts == 4)
    || (a == 64500 && b == 65536 && cap == 193 * UNIT && parts == 4)
    || (a == 65536 && b == 65536 && cap == 152 * UNIT && parts == 3)
  }

  lemma PieceIsCovered(a: nat, b: nat, cap: int, parts: nat)
    requires IsPiece(a, b, cap, parts)
    ensures Covered(a, b, cap, parts)
  {
    hide Covered;
    LowPieces();
    MiddlePieces();
    UpperPieces();
    HighPieces();
    LastPieces();
  }

  /** Some piece holds every sum up to a whole. */
  lemma PieceOf(sum: nat) returns (a: nat, b: nat, cap: int)
    requires sum <= 65536
    ensures a <= sum <= b && IsPiece(a, b, cap, 4)
  {
    if sum <= 14000 {
      a, b, cap := 0, 14000, 122 * UNIT;
    } else if sum <= 20500 {
      a, b, cap := 14000, 20500, 143 * UNIT;
    } else if sum <= 25500 {
      a, b, cap := 20500, 25500, 159 * UNIT;
    } else if sum <= 42000 {
      a, b, cap := 25500, 42000, 164 * UNIT;
    } else if sum <= 50500 {
      a, b, cap := 42000, 50500, 196 * UNIT;
    } else if sum <= 54500 {
      a, b, cap := 50500, 54500, 218 * UNIT;
    } else if sum <= 56500 {
      a, b, cap := 54500, 56500, 219 * UNIT;
    } else if sum <= 58000 {
      a, b, cap := 56500, 58000, 223 * UNIT;
    } else if sum <= 59500 {
      a, b, cap := 58000, 59500, 230 * UNIT;
    } else if sum <= 61000 {
      a, b, cap := 59500, 61000, 234 * UNIT;
    } else if sum <= 62500 {
      a, b, cap := 61000, 62500, 233 * UNIT;
    } else if sum <= 64500 {
      a, b, cap := 62500, 64500, 243 * UNIT;
    } else {
      a, b, cap := 64500, 65536, 193 * UNIT;
    }
  }

  lemma GapAbove(sum: nat, product: nat, a: nat, b: nat, cap: int, parts: nat)
    requires IsPiece(a, b, cap, parts) && a <= sum <= b && 4 * product <= Square(sum)
    ensures Gap(sum, product) <= cap
  {
    hide Slope, Bend, Tilt, Square, Cube, Gap, IsPiece, Curve, Summed, Low, High;
    PieceIsCovered(a, b, cap, parts);
    SlopeBetween(sum, a, b, Low(a, b), High(a, b));
    BendFalls(sum, b);
    SquareRises(sum, b);
    GapFactored(sum, product);
    GapAboveBy(product, Slope(sum), Bend(sum), Bend(b), Square(b), High(a, b), cap);
  }

  lemma GapBelow(sum: nat, product: nat, a: nat, b: nat, cap: int, parts: nat)
    requires IsPiece(a, b, cap, parts) && a <= sum <= b && 4 * product <= Square(sum)
    ensures -cap <= Gap(sum, product)
  {
    hide Slope, Bend, Tilt, Square, Cube, Gap, IsPiece, Curve, Summed, Low, High;
    PieceIsCovered(a, b, cap, parts);
    SlopeBetween(sum, a, b, Low(a, b), High(a, b));
    BendFalls(a, sum);
    BendFalls(sum, b);
    SquareRises(sum, b);
    GapFactored(sum, product);
    GapBelowBy(product, Slope(sum), Bend(sum), Bend(a), Square(b), Low(a, b), cap);
  }

  // --- Rounding ---

  lemma CurveRises(x: nat, y: nat)
    requires x <= y
    ensures ONE <= Curve(x) <= Curve(y)
  {
    hide Square, Cube;
    SquareRises(x, y);
  }

  /** The factor is the curve rounded to the nearest unit. */
  lemma Nearest(f: nat)
    ensures -HALF <= SCALE * Factor(f) - Curve(f) <= HALF
  {
    hide Square, Cube;
    var x := Cubic(f);
    assert x == Curve(f) - ONE + HALF;
    DivBounds(x, SCALE, x / SCALE);
  }

  /** Two products whose terms are within a half of one another. */
  lemma ProductsNear(u: int, v: int, x: int, y: int, z: int)
    requires 0 <= x <= z && 0 <= y <= z && -HALF <= u - x <= HALF && -HALF <= v - y <= HALF
    ensures -(2 * HALF * z + HALF * HALF) <= u * v - x * y <= 2 * HALF * z + HALF * HALF
  {
    var a, b := u - x, v - y;
    assert u * v == x * y + a * y + b * x + a * b;
    Between(y, a, HALF);
    Between(x, b, HALF);
    if a >= 0 {
      Between(a, b, HALF);
    } else {
      Between(-a, b, HALF);
    }
  }

  lemma Between(n: nat, a: int, m: int)
    requires -m <= a <= m
    ensures -(m * n) <= a * n <= m * n
  {
    MulMono(n, -m, a);
    MulMono(n, a, m);
  }

  predicate Within(x: int, y: nat, parts: nat) {
    10000 * (x - y) <= Summed(y, parts) && 10000 * (y - x) <= Summed(y, parts)
  }

  /** Close at the scale of the curve is close. */
  lemma Unscaled(f: nat, g: nat, h: nat, parts: nat)
    requires Within((SCALE * f) * (SCALE * g), ONE * (SCALE * h), parts)
    ensures Within(f * g, 65536 * h, parts)
  {
    Coefficients(SCALE, SCALE, f, g);
    assert ONE * (SCALE * h) == (SCALE * SCALE) * (65536 * h);
    Shrink(f * g, 65536 * h, parts);
  }

  lemma Shrink(x: int, y: nat, parts: nat)
    requires Within((SCALE * SCALE) * x, (SCALE * SCALE) * y, parts)
    ensures Within(x, y, parts)
  {
    hide Summed;
    var d := SCALE * SCALE;
    SummedIs(y, parts);
    SummedIs(d * y, parts);
    MulAssoc(d, y, parts);
    Cancelled(d, 10000 * (x - y), Summed(y, parts));
    Cancelled(d, 10000 * (y - x), Summed(y, parts));
  }

  lemma Cancelled(d: int, x: int, y: int)
    requires d > 0 && d * x <= d * y
    ensures x <= y
  {
    assert x > y ==> d * (x - y) >= d;
  }

  lemma Together(f: nat, g: nat, a: nat, b: nat, cap: int, parts: nat)
    requires a <= f + g <= b && IsPiece(a, b, cap, parts)
    ensures Within(Factor(f) * Factor(g), 65536 * Factor(f + g), parts)
  {
    hide Curve, Gap, Factor, Within, Square, Cube, Summed;
    CurveProduct(f, g);
    SummedIs(Curve(f), Curve(g));
    GapWithin(f, g, a, b, cap, parts);
    CoversAll(a, b, f + g, cap, parts);
    CurveRises(f, f + g);
    CurveRises(g, f + g);
    Nearest(f);
    Nearest(g);
    Nearest(f + g);
    Rounded(Factor(f), Factor(g), Factor(f + g), Curve(f), Curve(g), Curve(f + g), Gap(f + g, Summed(f, g)), cap,
            parts);
  }

  lemma GapWithin(f: nat, g: nat, a: nat, b: nat, cap: int, parts: nat)
    requires a <= f + g <= b && IsPiece(a, b, cap, parts)
    ensures -cap <= Gap(f + g, Summed(f, g)) <= cap
  {
    hide Gap, Square, Cube, Summed, IsPiece;
    ProductsFit(f, g);
    GapAbove(f + g, Summed(f, g), a, b, cap, parts);
    GapBelow(f + g, Summed(f, g), a, b, cap, parts);
  }

  /** Factors within half a unit of three points of the curve multiply as the points do, but for rounding. */
  lemma Rounded(f: nat, g: nat, h: nat, x: nat, y: nat, z: nat, gap: int, cap: int, parts: nat)
    requires x <= z && y <= z && x * y == ONE * z + gap && -cap <= gap <= cap
    requires -HALF <= SCALE * f - x <= HALF && -HALF <= SCALE * g - y <= HALF && -HALF <= SCALE * h - z <= HALF
    requires 10000 * (cap + 2 * HALF * z + HALF * HALF + ONE * HALF) + parts * (ONE * HALF) <= ONE * Summed(z, parts)
    ensures Within(f * g, 65536 * h, parts)
  {
    hide Within, Summed;
    ProductsNear(SCALE * f, SCALE * g, x, y, z);
    Summing((SCALE * f) * (SCALE * g), SCALE * h, x * y, z, gap, cap, parts);
    Unscaled(f, g, h, parts);
  }

  lemma ProductsFit(f: nat, g: nat)
    ensures 4 * Summed(f, g) <= Square(f + g)
  {
    hide Square, Cube, Summed;
    SummedIs(f, g);
    PowersTogether(f, g);
    MeanSquare(f, g);
  }

  lemma MeanSquare(x: nat, y: nat)
    ensures 2 * (x * y) <= Square(x) + Square(y)
  {
    hide Square, Cube;
    PowersAre(x);
    PowersAre(y);
    assert (x - y) * (x - y) == x * x - 2 * (x * y) + y * y;
  }

  lemma CoversAll(a: nat, b: nat, sum: nat, cap: int, parts: nat)
    requires IsPiece(a, b, cap, parts) && a <= sum
    ensures 10000 * (cap + 2 * HALF * Curve(sum) + HALF * HALF + ONE * HALF) + parts * (ONE * HALF)
         <= ONE * Summed(Curve(sum), parts)
  {
    hide Curve, Capped, Low, High, Summed;
    PieceIsCovered(a, b, cap, parts);
    CurveRises(a, sum);
    SummedIs(Curve(a), parts);
    SummedIs(Curve(sum), parts);
    Stretched(Curve(a), Curve(sum), parts,
              10000 * (cap + HALF * HALF + ONE * HALF) + parts * (ONE * HALF));
  }

  lemma Stretched(c: int, z: int, parts: nat, rest: int)
    requires c <= z && parts > 0 && rest <= ONE * (c * parts) - 20000 * HALF * c
    ensures rest + 20000 * (HALF * z) <= ONE * (z * parts)
  {
    MulMono(ONE * parts - 20000 * HALF, c, z);
    assert (ONE * parts - 20000 * HALF) * c == ONE * (c * parts) - 20000 * HALF * c;
    assert (ONE * parts - 20000 * HALF) * z == ONE * (z * parts) - 20000 * HALF * z;
  }

  lemma Summing(uv: int, w: nat, xy: int, z: nat, gap: int, cap: int, parts: nat)
    requires xy == ONE * z + gap && -cap <= gap <= cap && -HALF <= w - z <= HALF
    requires -(2 * HALF * z + HALF * HALF) <= uv - xy <= 2 * HALF * z + HALF * HALF
    requires 10000 * (cap + 2 * HALF * z + HALF * HALF + ONE * HALF) + parts * (ONE * HALF) <= ONE * Summed(z, parts)
    ensures Within(uv, ONE * w, parts)
  {
    hide Summed;
    SummedIs(z, parts);
    SummedIs(ONE * w, parts);
    MulMono(parts, z - HALF, w);
    MulAssoc(ONE, w, parts);
    assert parts * (z - HALF) == z * parts - parts * HALF;
  }

  // --- The laws ---

  /** The factor of a sum is the product of the factors, to four parts in ten thousand. */
  lemma ProductLaw(f: nat, g: nat)
    requires f + g <= 65536
    ensures var product, whole := Factor(f) * Factor(g), 65536 * Factor(f + g);
            10000 * (product - whole) <= 4 * whole && 10000 * (whole - product) <= 4 * whole
  {
    hide Factor;
    var a, b, cap := PieceOf(f + g);
    Together(f, g, a, b, cap, 4);
    SummedIs(65536 * Factor(f + g), 4);
  }

  /** Two fractions that make a whole double, to three parts in ten thousand. */
  lemma ReflectionLaw(f: nat)
    requires f <= 65536
    ensures var product := Factor(f) * Factor(65536 - f);
            && 10000 * (product - 0x2_0000_0000) <= 3 * 0x2_0000_0000
            && 10000 * (0x2_0000_0000 - product) <= 3 * 0x2_0000_0000
  {
    hide Factor;
    Together(f, 65536 - f, 65536, 65536, 152 * UNIT, 3);
    FactorValues();
    SummedIs(0x2_0000_0000, 3);
  }

  /** One, the fourth root of two, its square and its cube, two less a unit, and two. */
  lemma FactorValues()
    ensures Factor(0) == 65536 && Factor(16384) == 77938 && Factor(32768) == 92674
    ensures Factor(49152) == 110225 && Factor(65535) == 131071 && Factor(65536) == 131072
  {
    hide Square, Cube;
    PowersAre(0);
    PowersAre(16384);
    PowersAre(32768);
    PowersAre(49152);
    PowersAre(65535);
    PowersAre(65536);
  }
}
