/** The compact encoding of a 256-bit target: a size in bytes and the three leading bytes. */
module Targets {
  import opened Arith
  import opened Digits
  import opened Primitives
  import opened Works

  const TWO24: nat := 0x100_0000
  const SIGN_BIT: nat := 0x80_0000

  // --- What an encoding means ---

  /** The bytes a value takes with a clear top bit in front. */
  function SignedSize(t: nat): (s: nat)
    ensures s >= 1
  {
    if t < 128 then 1 else 1 + SignedSize(t / 256)
  }

  lemma {:induction false} SizeBounds(t: nat)
    ensures var s := SignedSize(t);
            t < 128 * Pow(256, s - 1) && (s >= 2 ==> 128 * Pow(256, s - 2) <= t)
  {
    hide Pow;
    PowZero(256);
    if t >= 128 {
      var s := SignedSize(t / 256);
      SizeBounds(t / 256);
      PowNext(256, s - 1);
      if s >= 2 {
        PowNext(256, s - 2);
      }
    }
  }

  lemma SizeUnique(t: nat, s: nat)
    requires s >= 1 && t < 128 * Pow(256, s - 1) && (s >= 2 ==> 128 * Pow(256, s - 2) <= t)
    ensures SignedSize(t) == s
  {
    hide Pow;
    var r := SignedSize(t);
    SizeBounds(t);
    if r < s {
      PowMono(256, r - 1, s - 2);
      assert false;
    }
    if s < r {
      PowMono(256, s - 1, r - 2);
      assert false;
    }
  }

  lemma {:induction false} SizeMono(t: nat, u: nat)
    requires t <= u
    ensures SignedSize(t) <= SignedSize(u)
  {
    if t >= 128 {
      SizeMono(t / 256, u / 256);
    }
  }

  /** The three leading bytes. */
  function Mantissa(t: nat, s: nat): nat {
    if s >= 3 then t / Pow(256, s - 3) else t * Pow(256, 3 - s)
  }

  /** What the encoding can tell apart at this size. */
  function Unit(s: nat): (u: nat)
    ensures u > 0
  {
    if s <= 3 then 1 else Pow(256, s - 3)
  }

  function Compact(t: nat): nat {
    if t == 0 then 0 else SignedSize(t) * TWO24 + Mantissa(t, SignedSize(t))
  }

  /** The largest encodable value no greater than `t`. */
  function Round(t: nat): nat {
    DownTo(t, Unit(SignedSize(t)))
  }

  /** The largest multiple of `u` no greater than `t`. */
  function DownTo(t: nat, u: nat): nat
    requires u > 0
  {
    u * (t / u)
  }

  /** The one value an encoding stands for: the value's own encoding, losing nothing. */
  ghost predicate Encodes(bits: nat, t: nat) {
    0 < t < Limit() && Compact(t) == bits && Round(t) == t
  }

  lemma MantissaBounds(t: nat)
    requires t > 0
    ensures 0x8000 <= Mantissa(t, SignedSize(t)) < SIGN_BIT
  {
    hide Pow;
    var s := SignedSize(t);
    SizeBounds(t);
    PowZero(256);
    PowNext(256, 0);
    PowNext(256, 1);
    if s >= 3 {
      var p := Pow(256, s - 3);
      PowNext(256, s - 3);
      PowNext(256, s - 2);
      DivBetween(t, p, 0x8000, SIGN_BIT);
    }
  }

  /** Reading the two fields back. */
  lemma Fields(t: nat)
    requires t > 0
    ensures Compact(t) / TWO24 == SignedSize(t) && Compact(t) % TWO24 == Mantissa(t, SignedSize(t))
  {
    MantissaBounds(t);
    DivModUnique(Compact(t), TWO24, SignedSize(t), Mantissa(t, SignedSize(t)));
  }

  /** The value `m` bytes-shifted by `e`: exactly `m * 256^(e - 3)`, whichever side of 3 the exponent is. */
  ghost predicate Spells(m: nat, e: nat, t: nat) {
    t * Pow(256, 3) == m * Pow(256, e)
  }

  lemma SpellsUnique(m: nat, e: nat, t: nat, u: nat)
    requires Spells(m, e, t) && Spells(m, e, u)
    ensures t == u
  {
    assert Pow(256, 3) == 0x100_0000;
  }

  /** An exact value is spelt by its own fields, and only an exact value is. */
  lemma RoundSpells(t: nat)
    ensures Spells(Mantissa(t, SignedSize(t)), SignedSize(t), Round(t))
  {
    hide Pow, SignedSize;
    var s := SignedSize(t);
    PowZero(256);
    if s >= 3 {
      var p := Pow(256, s - 3);
      PowAdd(256, s - 3, 3);
      assert Round(t) == p * (t / p);
      MulAssoc(t / p, p, Pow(256, 3));
    } else {
      PowAdd(256, 3 - s, s);
      MulAssoc(t, Pow(256, 3 - s), Pow(256, s));
    }
  }

  lemma SpeltIsExact(t: nat)
    requires Spells(Mantissa(t, SignedSize(t)), SignedSize(t), t)
    ensures Round(t) == t
  {
    hide Spells, Pow;
    RoundSpells(t);
    SpellsUnique(Mantissa(t, SignedSize(t)), SignedSize(t), t, Round(t));
  }

  // --- The encoding rounds down ---

  /** Rounding keeps the encoding, and what it gives is exact. */
  lemma RoundIsEncoded(t: nat)
    requires 0 < t < Limit()
    ensures 0 < Round(t) <= t && Encodes(Compact(t), Round(t))
  {
    hide Pow, Limit;
    MantissaBounds(t);
    SizeBounds(t);
    RoundKeepsSize(t);
    RoundKeepsMantissa(t);
    RoundSpells(t);
    SpeltIsExact(Round(t));
  }

  lemma RoundKeepsSize(t: nat)
    ensures SignedSize(Round(t)) == SignedSize(t) && 0 <= Round(t) <= t && (t > 0 ==> Round(t) > 0)
  {
    hide Pow, SignedSize;
    var s := SignedSize(t);
    SizeBounds(t);
    ModAtMost(t, Unit(s));
    if s >= 3 {
      var p := Pow(256, s - 3);
      PowZero(256);
      PowNext(256, s - 3);
      PowNext(256, s - 2);
      DivBetween(t, p, 128 * 256, 128 * 256 * 256);
      MulMono(p, 128 * 256, t / p);
    }
    SizeUnique(Round(t), s);
  }

  lemma RoundKeepsMantissa(t: nat)
    ensures Mantissa(Round(t), SignedSize(t)) == Mantissa(t, SignedSize(t))
  {
    hide Pow, SignedSize;
    var s := SignedSize(t);
    PowZero(256);
    if s >= 3 {
      var p := Pow(256, s - 3);
      DivModUnique(Round(t), p, t / p, 0);
    } else {
      assert t / 1 == t;
    }
  }

  /** A greater value never rounds to a lesser one. */
  lemma RoundMonotone(t: nat, u: nat)
    requires t <= u
    ensures Round(t) <= Round(u)
  {
    hide Pow, SignedSize, Mantissa;
    var s, r := SignedSize(t), SignedSize(u);
    SizeMono(t, u);
    if s == r {
      var p := Unit(s);
      DivMono(t, u, p);
      MulMono(p, t / p, u / p);
    } else {
      // The larger value still has its leading digit after rounding.
      RoundKeepsSize(t);
      RoundKeepsSize(u);
      SizeBounds(Round(u));
      SizeBounds(t);
      PowMono(256, s - 1, r - 2);
    }
  }

  /** No two encodings stand for one value, and no encoding for two. */
  lemma EncodingUnique(a: nat, b: nat, t: nat, u: nat)
    requires Encodes(a, t) && Encodes(b, u)
    ensures a == b <==> t == u
  {
    hide Pow, Limit;
    if a == b {
      Fields(t);
      Fields(u);
      RoundSpells(t);
      RoundSpells(u);
      SpellsUnique(Mantissa(t, SignedSize(t)), SignedSize(t), t, u);
    }
  }

  // --- The code ---

  method TargetToCompact(target: array<byte>) returns (bits: nat)
    requires target.Length == SIZE
    ensures BigEndian(target[..]) >= 0 && bits == Compact(BigEndian(target[..]))
  {
    hide BigEndian, Pow, SignedSize;
    ghost var v: seq<int> := target[..];
    BigEndianBound(v);
    var first := 0;
    while first < target.Length && target[first] == 0
      invariant first <= target.Length && forall i :: 0 <= i < first ==> target[i] == 0
    {
      first := first + 1;
    }
    if first == target.Length {
      BigEndianZero(v);
      return 0;
    }
    var size := target.Length - first;
    var mantissa := 0;
    for offset := 0 to 3
      invariant mantissa == Leading(v, first, offset)
    {
      mantissa := mantissa * 256;
      if first + offset < target.Length {
        mantissa := mantissa + target[first + offset];
      }
    }
    LeadingMeans(v, first);
    if mantissa / SIGN_BIT % 2 == 1 {
      mantissa := mantissa / 256;
      size := size + 1;
    }
    return size * TWO24 + mantissa;
  }

  /** The first `k` bytes from `first`, those past the end read as zero. */
  ghost function Leading(v: seq<int>, first: nat, k: nat): int {
    if k == 0 then 0 else Leading(v, first, k - 1) * 256 + At(v, first + k - 1)
  }

  /** The three bytes, left-aligned, and the size they belong to. */
  lemma LeadingMeans(v: seq<int>, first: nat)
    requires AreBytes(v) && first < |v| && v[first] != 0 && forall i :: 0 <= i < first ==> v[i] == 0
    ensures var m, t, size := Leading(v, first, 3), BigEndian(v), |v| - first;
            && 0 <= m < TWO24 && t > 0
            && (m / SIGN_BIT % 2 == 1 ==> SignedSize(t) == size + 1 && Mantissa(t, size + 1) == m / 256)
            && (m / SIGN_BIT % 2 != 1 ==> SignedSize(t) == size && Mantissa(t, size) == m)
  {
    hide Pow, BigEndian, SignedSize;
    var size, t := |v| - first, BigEndian(v);
    var m := Leading(v, first, 3);
    LeadingBytes(v, first);
    LeadingParts(v, first);
    PowZero(256);
    PowNext(256, 0);
    PowNext(256, 1);
    if size >= 3 {
      LeadingMany(t, m, size);
    } else {
      LeadingFew(t, m, size);
    }
  }

  lemma LeadingBytes(v: seq<int>, first: nat)
    requires AreBytes(v) && first < |v|
    ensures Leading(v, first, 3) == v[first] * 0x1_0000 + At(v, first + 1) * 256 + At(v, first + 2)
  {
    assert Leading(v, first, 1) == v[first];
    assert Leading(v, first, 2) == v[first] * 256 + At(v, first + 1);
  }

  /** The value is its leading bytes, in their place, and something smaller than one of their units. */
  lemma LeadingParts(v: seq<int>, first: nat)
    requires AreBytes(v) && first < |v| && v[first] != 0 && forall i :: 0 <= i < first ==> v[i] == 0
    ensures var m := v[first] * 0x1_0000 + At(v, first + 1) * 256 + At(v, first + 2);
            var t, size := BigEndian(v), |v| - first;
            && 0x1_0000 <= m < TWO24
            && (size >= 3 ==> m * Pow(256, size - 3) <= t < (m + 1) * Pow(256, size - 3))
            && (size < 3 ==> t * Pow(256, 3 - size) == m)
  {
    hide Pow, BigEndian, Low;
    var size := |v| - first;
    LeadingZeros(v, size);
    LowNone(v);
    LowNext(v, size - 1);
    PowZero(256);
    PowNext(256, 0);
    PowNext(256, 1);
    if size >= 2 {
      LowNext(v, size - 2);
    }
    if size >= 3 {
      LowNext(v, size - 3);
      LowBound(v, size - 3);
      PowNext(256, size - 3);
      PowNext(256, size - 2);
      LeadingSum(v[first], v[first + 1], v[first + 2], Pow(256, size - 3));
    }
  }

  lemma LeadingSum(a: int, b: int, c: int, p: int)
    ensures a * (256 * (256 * p)) + b * (256 * p) + c * p == (a * 0x1_0000 + b * 256 + c) * p
    ensures (a * 0x1_0000 + b * 256 + c + 1) * p == (a * 0x1_0000 + b * 256 + c) * p + p
  {
    MulSucc(a * 0x1_0000 + b * 256 + c, p);
  }

  lemma LeadingMany(t: nat, m: nat, size: nat)
    requires size >= 3 && 0x1_0000 <= m < TWO24 && m * Pow(256, size - 3) <= t < (m + 1) * Pow(256, size - 3)
    ensures m >= SIGN_BIT ==> SignedSize(t) == size + 1 && Mantissa(t, size + 1) == m / 256
    ensures m < SIGN_BIT ==> SignedSize(t) == size && Mantissa(t, size) == m
  {
    hide Pow, SignedSize;
    var p := Pow(256, size - 3);
    PowNext(256, size - 3);
    PowNext(256, size - 2);
    PowNext(256, size - 1);
    DivBoundsAt(t, p, m);
    DivDiv(t, p, 256);
    if m >= SIGN_BIT {
      MulMono(p, SIGN_BIT, m);
      MulMono(p, m + 1, TWO24);
      SizeUnique(t, size + 1);
    } else {
      MulMono(p, 0x1_0000, m);
      MulMono(p, m + 1, SIGN_BIT);
      SizeUnique(t, size);
    }
  }

  lemma DivBoundsAt(t: nat, p: nat, m: nat)
    requires p > 0 && m * p <= t < (m + 1) * p
    ensures t / p == m
  {
    MulSucc(m, p);
    DivModUnique(t, p, m, t - p * m);
  }

  lemma LeadingFew(t: nat, m: nat, size: nat)
    requires 1 <= size < 3 && 0x1_0000 <= m < TWO24 && t * Pow(256, 3 - size) == m
    ensures m >= SIGN_BIT ==> SignedSize(t) == size + 1 && Mantissa(t, size + 1) == m / 256
    ensures m < SIGN_BIT ==> SignedSize(t) == size && Mantissa(t, size) == m
  {
    hide Pow, SignedSize;
    PowZero(256);
    PowNext(256, 0);
    PowNext(256, 1);
    PowNext(256, 2);
    if m >= SIGN_BIT {
      SizeUnique(t, size + 1);
    } else {
      SizeUnique(t, size);
    }
  }

  method CompactToTarget(bits: nat) returns (r: Option<array<byte>>)
    ensures r.Some? ==> fresh(r.value) && r.value.Length == SIZE
                        && BigEndian(r.value[..]) >= 0 && Encodes(bits, BigEndian(r.value[..]))
    ensures r.None? ==> forall t :: !Encodes(bits, t)
  {
    hide BigEndian, Pow, SignedSize, Mantissa, Round, Compact, Encodes, Limit, Spells, FallsOutside;
    var exponent, mantissa := bits / TWO24, bits % TWO24;
    EncodedFields(bits);
    if mantissa >= SIGN_BIT {
      return None;
    }
    if mantissa == 0 {
      return None;
    }
    var target := new byte[SIZE](_ => 0);
    var placed := PlaceBytes(target, mantissa, exponent);
    if !placed {
      return None;
    }
    BelowLimit(target[..]);
    ghost var t := BigEndian(target[..]);
    var canonical := TargetToCompact(target);
    DecodedExact(bits, t);
    if canonical != bits {
      return None;
    }
    return Some(target);
  }

  lemma BelowLimit(v: seq<int>)
    requires AreBytes(v) && |v| == SIZE
    ensures 0 <= BigEndian(v) < Limit()
  {
    hide BigEndian, Pow;
    BigEndianBound(v);
  }

  /** A mantissa byte that is not zero has no place in the array. */
  ghost predicate FallsOutside(m: nat, e: nat) {
    exists k :: 0 <= k < 3 && !(0 <= SIZE - e + k < SIZE) && MantissaByte(m, k) != 0
  }

  /** Writes the three mantissa bytes where the exponent puts them, unless one would be lost. */
  method PlaceBytes(target: array<byte>, mantissa: nat, exponent: nat) returns (placed: bool)
    requires target.Length == SIZE && mantissa < TWO24 && forall i :: 0 <= i < SIZE ==> target[i] == 0
    modifies target
    ensures placed ==> BigEndian(target[..]) >= 0 && Spells(mantissa, exponent, BigEndian(target[..]))
    ensures !placed ==> FallsOutside(mantissa, exponent)
  {
    hide BigEndian, Pow, Spells, Placed, Weight, MantissaByte;
    BigEndianZero(target[..]);
    var mostSignificant := SIZE - exponent;
    PlacedNone(mantissa, exponent);
    for offset := 0 to 3
      invariant forall i :: 0 <= i < SIZE && i >= mostSignificant + offset ==> target[i] == 0
      invariant BigEndian(target[..]) >= 0 && Spells(Placed(mantissa, offset), exponent, BigEndian(target[..]))
    {
      var digit := MantissaByte(mantissa, offset);
      var index := mostSignificant + offset;
      PlacedNext(mantissa, offset);
      ghost var v: seq<int> := target[..];
      if index < 0 || index >= SIZE {
        if digit != 0 {
          return false;
        }
        continue;
      }
      target[index] := digit;
      assert target[..] == v[index := digit];
      BigEndianUpdate(v, index, digit);
      BigEndianBound(target[..]);
      PlaceByte(mantissa, exponent, BigEndian(v), offset);
    }
    return true;
  }

  lemma PlacedNone(m: nat, e: nat)
    ensures Spells(Placed(m, 0), e, 0) && Placed(m, 3) == m
  {
  }

  /** The weight of a mantissa byte. */
  function Weight(k: nat): (w: nat)
    ensures w > 0
  {
    if k == 0 then 1 else if k == 1 then 256 else 0x1_0000
  }

  /** The mantissa's bytes, the leading one first. */
  function MantissaByte(m: nat, k: nat): byte {
    if k == 0 then m / 0x1_0000 % 256 else if k == 1 then m / 256 % 256 else m % 256
  }

  /** The mantissa with only its first `k` bytes. */
  ghost function Placed(m: nat, k: nat): nat {
    if k == 0 then 0 else if k == 1 then m / 0x1_0000 * 0x1_0000 else if k == 2 then m / 256 * 256 else m
  }

  lemma PlacedNext(m: nat, k: nat)
    requires m < TWO24 && k < 3
    ensures Placed(m, k + 1) == Placed(m, k) + MantissaByte(m, k) * Weight(2 - k)
  {
  }

  lemma PlaceByte(m: nat, e: nat, before: nat, k: nat)
    requires m < TWO24 && k < 3 && Spells(Placed(m, k), e, before) && e >= k + 1
    ensures Spells(Placed(m, k + 1), e, before + MantissaByte(m, k) * Pow(256, e - 1 - k))
  {
    hide Pow;
    PlacedNext(m, k);
    var d, p := MantissaByte(m, k), Pow(256, e - 1 - k);
    PowZero(256);
    PowNext(256, 0);
    PowNext(256, 1);
    PowAdd(256, e - 1 - k, 3);
    PowAdd(256, e, 2 - k);
    assert Weight(2 - k) == Pow(256, 2 - k);
    Distribute(Pow(256, 3), before, d * p);
    MulAssoc(d, p, Pow(256, 3));
    Distribute(Pow(256, e), Placed(m, k), d * Weight(2 - k));
    MulAssoc(d, Weight(2 - k), Pow(256, e));
  }

  /** What the fields of an accepted encoding look like: a clear sign, a mantissa, and no byte that would
      fall outside the array. */
  lemma EncodedFields(bits: nat)
    ensures forall t :: Encodes(bits, t) ==> 0 < bits % TWO24 < SIGN_BIT && !FallsOutside(bits % TWO24, bits / TWO24)
  {
    forall t | Encodes(bits, t)
      ensures 0 < bits % TWO24 < SIGN_BIT && !FallsOutside(bits % TWO24, bits / TWO24)
    {
      EncodedFieldsOf(bits, t);
    }
  }

  lemma EncodedFieldsOf(bits: nat, t: nat)
    requires Encodes(bits, t)
    ensures 0 < bits % TWO24 < SIGN_BIT && !FallsOutside(bits % TWO24, bits / TWO24)
  {
    hide Pow, SignedSize, Round;
    Fields(t);
    MantissaBounds(t);
    SizeAtMost(t, SIZE);
    PowZero(256);
    PowNext(256, 0);
    PowNext(256, 1);
    var e, m := bits / TWO24, bits % TWO24;
    assert 1 <= e <= SIZE + 1;
    assert e == SIZE + 1 ==> MantissaByte(m, 0) == 0;
    assert e == 1 ==> MantissaByte(m, 1) == 0;
    assert e <= 2 ==> MantissaByte(m, 2) == 0;
  }

  lemma SizeAtMost(t: nat, n: nat)
    requires t < Pow(256, n) && n >= 2
    ensures SignedSize(t) <= n + 1
    ensures SignedSize(t) == n + 1 ==> Mantissa(t, n + 1) < 0x1_0000
  {
    hide Pow, SignedSize;
    var s := SignedSize(t);
    SizeBounds(t);
    if s > n + 1 {
      PowMono(256, n, s - 2);
    } else if s == n + 1 {
      var p := Pow(256, n - 2);
      PowNext(256, n - 2);
      PowNext(256, n - 1);
      DivBetween(t, p, 0, 0x1_0000);
    }
  }

  /** The bytes placed spell the value, so the encoding is accepted exactly when it is that value's own. */
  lemma DecodedExact(bits: nat, t: nat)
    requires t < Limit() && Spells(bits % TWO24, bits / TWO24, t) && bits % TWO24 > 0
    ensures Compact(t) == bits ==> Encodes(bits, t)
    ensures Compact(t) != bits ==> forall u :: !Encodes(bits, u)
  {
    hide Pow, SignedSize, Limit, Mantissa, Round;
    if t == 0 {
      assert 0 * Pow(256, 3) == 0;
      MulAtLeast(bits % TWO24, Pow(256, bits / TWO24));
    }
    assert t > 0;
    if Compact(t) == bits {
      Fields(t);
      SpeltIsExact(t);
    }
    forall u | Encodes(bits, u) ensures t == u {
      Fields(u);
      RoundSpells(u);
      SpellsUnique(bits % TWO24, bits / TWO24, t, u);
    }
  }

  // --- The format ---

  /** The bits are a size in the top byte and a mantissa of three below it, its sign bit clear and as few
      leading zeros as that leaves, and the value is the mantissa moved up by size less three bytes. */
  lemma EncodingMeans(bits: nat, t: nat)
    ensures Encodes(bits, t)
       <==> var size, m := bits / 0x100_0000, bits % 0x100_0000;
            0 < t < Pow(256, 32) && 0x8000 <= m < 0x80_0000 && t * Pow(256, 3) == m * Pow(256, size)
  {
    hide Pow, SignedSize, Mantissa, Round, Compact;
    var size, m := bits / 0x100_0000, bits % 0x100_0000;
    if Encodes(bits, t) {
      Fields(t);
      MantissaBounds(t);
      RoundSpells(t);
    }
    if 0 < t < Pow(256, 32) && 0x8000 <= m < 0x80_0000 && t * Pow(256, 3) == m * Pow(256, size) {
      SizeOfSpelt(size, m, t);
      SpeltIsExact(t);
      assert bits == size * TWO24 + m;
      CompactIs(t);
    }
  }

  lemma CompactIs(t: nat)
    requires t > 0
    ensures Compact(t) == SignedSize(t) * TWO24 + Mantissa(t, SignedSize(t))
  {
  }

  lemma SizeOfSpelt(size: nat, m: nat, t: nat)
    requires 0 < t && 0x8000 <= m < 0x80_0000 && t * Pow(256, 3) == m * Pow(256, size)
    ensures SignedSize(t) == size && Mantissa(t, size) == m
  {
    hide Pow, SignedSize;
    if size >= 3 {
      PowAdd(256, size - 3, 3);
      SpeltLarge(size, m, t, Pow(256, size - 3), Pow(256, 3));
    } else {
      SpeltSmall(size, m, t);
    }
  }

  lemma SpeltLarge(size: nat, m: nat, t: nat, p: nat, q: nat)
    requires size >= 3 && p == Pow(256, size - 3) && q > 0 && 0x8000 <= m < 0x80_0000
    requires t * q == m * (p * q)
    ensures SignedSize(t) == size && Mantissa(t, size) == m
  {
    hide Pow, SignedSize;
    MulAssoc(m, p, q);
    SameFactor(t, m * p, q);
    PowNext(256, size - 3);
    PowNext(256, size - 2);
    MulMono(p, 0x8000, m);
    MulMono(p, m + 1, 0x80_0000);
    SizeUnique(t, size);
    DivModUnique(t, p, m, 0);
  }

  lemma SameFactor(x: int, y: int, q: nat)
    requires q > 0 && x * q == y * q
    ensures x == y
  {
    DivModUnique(x * q, q, x, 0);
    DivModUnique(y * q, q, y, 0);
  }

  lemma SpeltSmall(size: nat, m: nat, t: nat)
    requires size < 3 && 0 < t && 0x8000 <= m < 0x80_0000 && t * Pow(256, 3) == m * Pow(256, size)
    ensures SignedSize(t) == size && Mantissa(t, size) == m
  {
    hide SignedSize, Pow;
    PowZero(256);
    PowNext(256, 0);
    PowNext(256, 1);
    PowNext(256, 2);
    if size == 2 {
      assert t * 256 == m;
      SizeUnique(t, 2);
    } else if size == 1 {
      assert t * 65536 == m;
      SizeUnique(t, 1);
    }
  }
}
