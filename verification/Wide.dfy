/** 320-bit arithmetic on five 64-bit limbs, least significant first, changed in place. */
module Wides {
  import opened Arith
  import opened Digits
  import opened Feerate
  import opened Primitives
  import opened Works

  const LIMB_COUNT: nat := 5
  const LIMB_BITS: nat := 64

  ghost function ValueOf(limbs: seq<int>): int {
    Value(limbs, TWO64)
  }

  // --- One limb times one limb ---

  function CarryBit(sum: nat, part: nat): nat {
    if sum < part then 1 else 0
  }

  /** A 64-bit sum wraps exactly when it comes out below one of its parts. */
  lemma WrapAdd(x: nat, y: nat)
    requires x < TWO64 && y < TWO64
    ensures Wrap64(x + y) + CarryBit(Wrap64(x + y), x) * TWO64 == x + y
    ensures Wrap64(x + y) + CarryBit(Wrap64(x + y), y) * TWO64 == x + y
    ensures Wrap64(x + y) < TWO64
  {
    if x + y < TWO64 {
      DivModUnique(x + y, TWO64, 0, x + y);
    } else {
      DivModUnique(x + y, TWO64, 1, x + y - TWO64);
    }
  }

  /** `a * b + add` as a high and a low word, in 64-bit steps. */
  function MulAdd64(a: u64, b: u64, add: u64): Product {
    var aLo, aHi, bLo, bHi := a % TWO32, a / TWO32, b % TWO32, b / TWO32;
    var p00, p01, p10, p11 := Wrap64(aLo * bLo), Wrap64(aLo * bHi), Wrap64(aHi * bLo), Wrap64(aHi * bHi);
    var midLo := Wrap64(p01 + p10);
    var midCarry := CarryBit(midLo, p01);
    var low := Wrap64(Wrap64(midLo * TWO32) + p00);
    var lowCarry := CarryBit(low, p00);
    var withAdd := Wrap64(low + add);
    var addCarry := CarryBit(withAdd, low);
    Product(Wrap64(p11 + Wrap64(midCarry * TWO32) + midLo / TWO32 + lowCarry + addCarry), withAdd)
  }

  /** Both carries land where they belong: the two words are exactly the product and the addend. */
  lemma MulAddExact(a: u64, b: u64, add: u64)
    ensures var r := MulAdd64(a, b, add);
            r.hi * TWO64 + r.lo == a * b + add && r.hi < TWO64 && r.lo < TWO64
  {
    hide Wrap64, CarryBit;
    var aLo, aHi, bLo, bHi := a % TWO32, a / TWO32, b % TWO32, b / TWO32;
    SmallProduct(aLo, bLo);
    SmallProduct(aLo, bHi);
    SmallProduct(aHi, bLo);
    SmallProduct(aHi, bHi);
    SplitProduct(aHi, aLo, bHi, bLo);
    assert a == aHi * TWO32 + aLo && b == bHi * TWO32 + bLo;
    ProductBound(a, b, add);
    MulAddCarries(aLo * bLo, aLo * bHi, aHi * bLo, aHi * bHi, add);
  }

  lemma ProductBound(a: u64, b: u64, add: u64)
    ensures a * b + add < TWO64 * TWO64
  {
    MulMono(a, b, TWO64 - 1);
    MulMono(TWO64 - 1, a, TWO64 - 1);
    assert a * (TWO64 - 1) == (TWO64 - 1) * a;
  }

  lemma MulAddCarries(p00: nat, p01: nat, p10: nat, p11: nat, add: u64)
    requires p00 < TWO64 && p01 < TWO64 && p10 < TWO64 && p11 < TWO64
    requires p11 * TWO64 + (p01 + p10) * TWO32 + p00 + add < TWO64 * TWO64
    ensures var midLo := Wrap64(p01 + p10);
            var midCarry := CarryBit(midLo, p01);
            var low := Wrap64(Wrap64(midLo * TWO32) + p00);
            var lowCarry := CarryBit(low, p00);
            var lo := Wrap64(low + add);
            var addCarry := CarryBit(lo, low);
            var hi := Wrap64(p11 + Wrap64(midCarry * TWO32) + midLo / TWO32 + lowCarry + addCarry);
            && hi * TWO64 + lo == p11 * TWO64 + (p01 + p10) * TWO32 + p00 + add
            && hi < TWO64 && 0 <= lo < TWO64
  {
    hide Wrap64, CarryBit;
    var midLo := Wrap64(p01 + p10);
    var midCarry := CarryBit(midLo, p01);
    WrapAdd(p01, p10);
    Carried(midLo, p01);
    HighHalf(midLo);
    var shifted := Wrap64(midLo * TWO32);
    var low := Wrap64(shifted + p00);
    WrapAdd(shifted, p00);
    Carried(low, p00);
    var lo := Wrap64(low + add);
    WrapAdd(low, add);
    Carried(lo, low);
    HighHalf(midCarry);
    var hi := p11 + midCarry * TWO32 + midLo / TWO32 + CarryBit(low, p00) + CarryBit(lo, low);
    FitsWord(hi, lo, p11 * TWO64 + (p01 + p10) * TWO32 + p00 + add);
  }

  lemma Carried(sum: nat, part: nat)
    ensures CarryBit(sum, part) <= 1
  {
  }

  /** Moving a word up half a word keeps its low half and hands its high half on. */
  lemma HighHalf(x: nat)
    requires x < TWO64
    ensures Wrap64(x * TWO32) == (x % TWO32) * TWO32 && (x / TWO32) * TWO64 + (x % TWO32) * TWO32 == x * TWO32
    ensures x <= 1 ==> x / TWO32 == 0 && x % TWO32 == x
    ensures Wrap64(x * TWO32) < TWO64
  {
    DivModUnique(x * TWO32, TWO64, x / TWO32, (x % TWO32) * TWO32);
  }

  lemma FitsWord(hi: nat, lo: nat, total: nat)
    requires hi * TWO64 + lo == total < TWO64 * TWO64
    ensures hi < TWO64 && Wrap64(hi) == hi
  {
    if hi >= TWO64 {
      MulMono(TWO64, TWO64, hi);
    }
    DivModUnique(hi, TWO64, 0, hi);
  }

  // --- Whole values ---

  ghost predicate AreLimbs(s: seq<int>) {
    forall i :: 0 <= i < |s| ==> 0 <= s[i] < TWO64
  }

  lemma ValueOfBound(s: seq<int>)
    requires AreLimbs(s)
    ensures 0 <= ValueOf(s) < Pow(TWO64, |s|)
  {
    ValueBound(s, TWO64);
  }

  method IsZero(value: array<u64>) returns (r: bool)
    ensures r == (ValueOf(value[..]) == 0)
  {
    hide Value;
    for i := 0 to value.Length
      invariant forall j :: 0 <= j < i ==> value[j] == 0
    {
      if value[i] != 0 {
        SomeDigit(value[..], i, TWO64);
        return false;
      }
    }
    ValueZeros(value[..], TWO64);
    return true;
  }

  lemma SomeDigit(s: seq<int>, i: nat, b: nat)
    requires b > 0 && AreDigits(s, b) && i < |s| && s[i] != 0
    ensures Value(s, b) > 0
  {
    hide Value, Pow;
    var zeros := seq(|s|, _ => 0);
    ValueZeros(zeros, b);
    var k := TopDigit(s, i);
    assert zeros[k + 1..] == s[k + 1..];
    ValueCompare(zeros, s, k, b);
  }

  /** The highest digit that is not zero. */
  lemma {:induction false} TopDigit(s: seq<int>, i: nat) returns (k: nat)
    requires i < |s| && s[i] != 0
    ensures k < |s| && s[k] != 0 && forall j :: k < j < |s| ==> s[j] == 0
    decreases |s| - i
  {
    if j :| i < j < |s| && s[j] != 0 {
      k := TopDigit(s, j);
    } else {
      k := i;
    }
  }

  method Exceeds(value: array<u64>, limit: array<u64>) returns (r: bool)
    requires value.Length == limit.Length
    ensures r == (ValueOf(value[..]) > ValueOf(limit[..]))
  {
    hide Value;
    var i := value.Length;
    while i > 0
      invariant 0 <= i <= value.Length && value[i..] == limit[i..]
    {
      i := i - 1;
      if value[i] != limit[i] {
        if value[i] > limit[i] {
          ValueCompare(limit[..], value[..], i, TWO64);
          return true;
        }
        ValueCompare(value[..], limit[..], i, TWO64);
        return false;
      }
    }
    assert value[..] == value[0..] == limit[0..] == limit[..];
    return false;
  }

  /** Multiplies by one word; says whether anything was lost off the top. */
  method MultiplySmall(value: array<u64>, factor: u64) returns (overflow: bool)
    modifies value
    ensures var product := old(ValueOf(value[..])) * factor;
            && overflow == (product >= Pow(TWO64, value.Length))
            && (!overflow ==> ValueOf(value[..]) == product)
  {
    hide Value, Pow, MulAdd64;
    var n := value.Length;
    ghost var v: seq<int> := value[..];
    var carry: u64 := 0;
    ValueOfNone(TWO64);
    assert v[..0] == [];
    for i := 0 to n
      invariant value[i..] == v[i..]
      invariant ValueOf(value[..i]) + carry * Pow(TWO64, i) == ValueOf(v[..i]) * factor
    {
      ghost var before: seq<int> := value[..i];
      assert value[i] == v[i..][0];
      MulAddExact(value[i], factor, carry);
      var r := MulAdd64(value[i], factor, carry);
      ghost var carried := carry;
      value[i] := r.lo;
      carry := r.hi;
      assert value[..i + 1] == before + [r.lo];
      assert value[i + 1..] == v[i..][1..] == v[i + 1..];
      ValueSnoc(before, r.lo, TWO64);
      ValueNext(v, i, TWO64);
      PowNext(TWO64, i);
      MultiplyStep(ValueOf(before), ValueOf(v[..i]), v[i], factor, carried, r.lo, r.hi, Pow(TWO64, i));
    }
    assert value[..n] == value[..] && v[..n] == v;
    ValueOfBound(value[..]);
    MultiplyEnds(ValueOf(value[..]), carry, Pow(TWO64, n));
    return carry != 0;
  }

  lemma MultiplyStep(done: int, source: int, d: int, factor: int, carried: int, lo: int, hi: int, p: int)
    requires done + carried * p == source * factor && hi * TWO64 + lo == d * factor + carried
    ensures done + lo * p + hi * (TWO64 * p) == (source + d * p) * factor
  {
    Distribute(p, hi * TWO64, lo);
    Distribute(p, d * factor, carried);
    Distribute(factor, source, d * p);
    assert hi * (TWO64 * p) == (hi * TWO64) * p;
    assert d * p * factor == (d * factor) * p;
  }

  lemma MultiplyEnds(kept: int, carry: nat, p: nat)
    requires 0 <= kept < p
    ensures carry == 0 ==> kept + carry * p == kept
    ensures carry > 0 ==> kept + carry * p >= p
  {
    if carry > 0 {
      MulMono(p, 1, carry);
    }
  }

  // --- Shifts ---

  lemma SplitWord(bitShift: nat)
    requires bitShift < LIMB_BITS
    ensures Pow(2, bitShift) * Pow(2, LIMB_BITS - bitShift) == TWO64
  {
    hide Pow;
    PowAdd(2, bitShift, LIMB_BITS - bitShift);
    WordPower();
  }

  lemma WordPower()
    ensures Pow(2, LIMB_BITS) == TWO64 == Pow(256, 8)
  {
    BytePower(8);
    assert Pow(256, 8) == TWO64;
  }

  lemma LimbPower(n: nat)
    ensures Pow(2, LIMB_BITS * n) == Pow(TWO64, n)
  {
    hide Pow;
    WordPower();
    PowPow(2, LIMB_BITS, n);
  }

  /** Divides by a power of two, dropping what falls off the bottom. */
  method ShiftRight(value: array<u64>, bits: nat)
    modifies value
    ensures ValueOf(value[..]) == old(ValueOf(value[..])) / Pow(2, bits)
  {
    hide Value, Pow;
    var n := value.Length;
    ghost var v: seq<int> := value[..];
    ValueOfBound(v);
    if bits >= n * LIMB_BITS {
      forall i | 0 <= i < n {
        value[i] := 0;
      }
      ValueZeros(value[..], TWO64);
      LimbPower(n);
      PowMono(2, LIMB_BITS * n, bits);
      DivModUnique(ValueOf(v), Pow(2, bits), 0, ValueOf(v));
      return;
    }
    var limbShift, bitShift := bits / LIMB_BITS, bits % LIMB_BITS;
    var shifted := new u64[n](_ => 0);
    var i := 0;
    while i < n && i + limbShift < n
      invariant 0 <= i && i + limbShift <= n
      invariant forall j :: 0 <= j < n ==> shifted[j] == if j < i then DownLimb(v, j + limbShift, bitShift) else 0
      invariant value[..] == v
    {
      var word := value[i + limbShift] / Pow(2, bitShift);
      DownLimbFits(v, i + limbShift, bitShift);
      if bitShift != 0 && i + limbShift + 1 < n {
        // The limb above lands in the bits the shift cleared, so the union is the sum.
        word := word + Wrap64(value[i + limbShift + 1] * Pow(2, LIMB_BITS - bitShift));
      }
      shifted[i] := word;
      i := i + 1;
    }
    forall j | 0 <= j < n {
      value[j] := shifted[j];
    }
    ShiftRightValue(v, value[..], limbShift, bitShift);
  }

  ghost function DownLimb(v: seq<int>, i: nat, bitShift: nat): int
    requires i < |v| && bitShift < LIMB_BITS
  {
    v[i] / Pow(2, bitShift) + (At(v, i + 1) % Pow(2, bitShift)) * Pow(2, LIMB_BITS - bitShift)
  }

  lemma DownLimbFits(v: seq<int>, i: nat, bitShift: nat)
    requires AreLimbs(v) && i < |v| && bitShift < LIMB_BITS
    ensures var word := v[i] / Pow(2, bitShift);
            && 0 <= word < TWO64 && 0 <= DownLimb(v, i, bitShift) < TWO64
            && DownLimb(v, i, bitShift)
               == if bitShift != 0 && i + 1 < |v| then word + Wrap64(v[i + 1] * Pow(2, LIMB_BITS - bitShift)) else word
  {
    hide Pow;
    var cut, lift := Pow(2, bitShift), Pow(2, LIMB_BITS - bitShift);
    SplitWord(bitShift);
    PowZero(2);
    DownParts(v[i], At(v, i + 1), cut, lift);
    if bitShift == 0 {
      assert At(v, i + 1) % 1 == 0;
    }
  }

  lemma DownParts(x: nat, above: nat, cut: nat, lift: nat)
    requires x < TWO64 && cut > 0 && lift > 0 && cut * lift == TWO64
    ensures 0 <= x / cut < lift && (above % cut) * lift <= TWO64 - lift
    ensures Wrap64(above * lift) == (above % cut) * lift
    ensures 0 <= x / cut < TWO64 && x / cut + (above % cut) * lift < TWO64
  {
    DivBetween(x, cut, 0, lift);
    MulMono(lift, above % cut, cut - 1);
    Distribute(lift, cut, 1);
    DivCancel(above, lift, cut);
    assert lift * above == above * lift && lift * cut == TWO64;
    MulMono(lift, 1, cut);
    MulMono(lift, 0, above % cut);
  }

  lemma ShiftRightValue(v: seq<int>, w: seq<int>, limbShift: nat, bitShift: nat)
    requires AreLimbs(v) && |v| == |w| && limbShift < |v| && bitShift < LIMB_BITS
    requires forall i :: 0 <= i < |v| ==>
               w[i] == if i + limbShift < |v| then DownLimb(v, i + limbShift, bitShift) else 0
    ensures ValueOf(w) == ValueOf(v) / Pow(2, LIMB_BITS * limbShift + bitShift)
  {
    hide Value, Pow, DownLimb;
    var cut, p := Pow(2, bitShift), Pow(TWO64, limbShift);
    var kept, low := ShiftRightParts(v, w, limbShift, bitShift);
    ValueSplit(v, limbShift, TWO64);
    ValueBound(v[..limbShift], TWO64);
    ValueBound(v[limbShift..], TWO64);
    ShiftRightStep(ValueOf(v), Value(v[..limbShift], TWO64), Value(v[limbShift..], TWO64), kept, low, cut, p);
    LimbPower(limbShift);
    PowAdd(2, LIMB_BITS * limbShift, bitShift);
  }

  /** The result holds the high limbs without their lowest bits. */
  lemma ShiftRightParts(v: seq<int>, w: seq<int>, limbShift: nat, bitShift: nat) returns (kept: int, low: int)
    requires AreLimbs(v) && |v| == |w| && limbShift < |v| && bitShift < LIMB_BITS
    requires forall i :: 0 <= i < |v| ==>
               w[i] == if i + limbShift < |v| then DownLimb(v, i + limbShift, bitShift) else 0
    ensures ValueOf(w) == kept && 0 <= low < Pow(2, bitShift)
    ensures kept * Pow(2, bitShift) + low == Value(v[limbShift..], TWO64)
  {
    hide Value, Pow, DownLimb, ShiftedDown;
    var m, cut, lift := |v| - limbShift, Pow(2, bitShift), Pow(2, LIMB_BITS - bitShift);
    var s, t := v[limbShift..], w[..m];
    SplitWord(bitShift);
    DownDigits(v, w, limbShift, bitShift);
    ShiftDownValue(s, t, m, cut, lift);
    assert t[..m] == t && s[..m] == s;
    ValueZeros(w[m..], TWO64);
    ValueSplit(w, m, TWO64);
    NothingAbove(s, cut, Pow(TWO64, m));
    kept, low := Value(t, TWO64), At(s, 0) % cut;
  }

  lemma NothingAbove(s: seq<int>, cut: nat, p: nat)
    requires cut > 0
    ensures (At(s, |s|) % cut) * p == 0 && 0 <= At(s, 0) % cut < cut
  {
    assert 0 % cut == 0;
  }

  lemma DownDigits(v: seq<int>, w: seq<int>, limbShift: nat, bitShift: nat)
    requires |v| == |w| && limbShift < |v| && bitShift < LIMB_BITS
    requires forall i :: 0 <= i < |v| ==>
               w[i] == if i + limbShift < |v| then DownLimb(v, i + limbShift, bitShift) else 0
    ensures ShiftedDown(v[limbShift..], w[..|v| - limbShift], Pow(2, bitShift), Pow(2, LIMB_BITS - bitShift))
  {
    hide Pow;
    var s, t := v[limbShift..], w[..|v| - limbShift];
    forall i | 0 <= i < |s|
      ensures t[i] == s[i] / Pow(2, bitShift) + (At(s, i + 1) % Pow(2, bitShift)) * Pow(2, LIMB_BITS - bitShift)
    {
      assert t[i] == DownLimb(v, i + limbShift, bitShift);
      assert At(s, i + 1) == At(v, i + limbShift + 1);
    }
  }

  lemma ShiftRightStep(x: nat, below: int, high: nat, kept: int, low: int, cut: nat, p: nat)
    requires cut > 0 && p > 0 && x == below + p * high && 0 <= below < p && 0 <= low < cut && kept * cut + low == high
    ensures x / (p * cut) == kept
  {
    DivModUnique(x, p, high, below);
    DivModUnique(high, cut, kept, low);
    DivDiv(x, p, cut);
  }

  /** Multiplies by a power of two; says whether a set bit went over the top. */
  method ShiftLeft(value: array<u64>, bits: nat) returns (overflow: bool)
    requires value.Length > 0
    modifies value
    ensures var product := old(ValueOf(value[..])) * Pow(2, bits);
            && overflow == (product >= Pow(TWO64, value.Length))
            && (!overflow ==> ValueOf(value[..]) == product)
  {
    hide Value, Pow, MovedUp, Lost;
    var n := value.Length;
    ghost var v: seq<int> := value[..];
    ValueOfBound(v);
    if bits == 0 {
      PowZero(2);
      return false;
    }
    if bits >= n * LIMB_BITS {
      var zero := IsZero(value);
      forall i | 0 <= i < n {
        value[i] := 0;
      }
      ValueZeros(value[..], TWO64);
      AllShiftedOut(ValueOf(v), bits, n);
      return !zero;
    }
    var limbShift, bitShift := bits / LIMB_BITS, bits % LIMB_BITS;
    var shifted := ShiftedLimbs(value, limbShift, bitShift);
    ghost var w: seq<int> := shifted[..];
    assert MovedUp(v, w, limbShift, Pow(2, bitShift), TWO64);
    overflow := DetectOverflow(value, limbShift, bitShift);
    forall i | 0 <= i < n {
      value[i] := shifted[i];
    }
    assert value[..] == w;
    MovedUpValue(v, w, limbShift, Pow(2, bitShift), TWO64);
    LimbPower(limbShift);
    PowAdd(2, LIMB_BITS * limbShift, bitShift);
    ValueOfBound(value[..]);
    LostNotNegative(v, limbShift, Pow(2, bitShift));
    OverflowStep(ValueOf(v) * Pow(2, bits), Pow(TWO64, n), Lost(v, limbShift, Pow(2, bitShift), TWO64),
                 ValueOf(value[..]));
  }

  lemma OverflowStep(product: int, p: nat, lost: nat, kept: int)
    requires product == p * lost + kept && 0 <= kept < p
    ensures product >= p <==> lost != 0
    ensures lost == 0 ==> product == kept
  {
    if lost != 0 {
      MulAtLeast(p, lost);
    }
  }

  lemma AllShiftedOut(x: nat, bits: nat, n: nat)
    requires bits >= n * LIMB_BITS
    ensures x * Pow(2, bits) >= Pow(TWO64, n) <==> x != 0
    ensures x == 0 ==> x * Pow(2, bits) == 0
  {
    hide Pow;
    LimbPower(n);
    PowMono(2, LIMB_BITS * n, bits);
    if x != 0 {
      MulAtLeast(Pow(2, bits), x);
    } else {
      assert 0 * Pow(2, bits) == 0;
    }
  }

  lemma LostNotNegative(v: seq<int>, limbShift: nat, lift: nat)
    requires AreLimbs(v) && limbShift < |v|
    ensures Lost(v, limbShift, lift, TWO64) >= 0
  {
    hide Value;
    var m := |v| - limbShift;
    ValueBound(v[m..], TWO64);
    MulMono(lift, 0, Value(v[m..], TWO64));
    MulMono(lift, 0, v[m - 1]);
    assert v[m - 1] * lift >= 0;
  }

  method ShiftedLimbs(value: array<u64>, limbShift: nat, bitShift: nat) returns (shifted: array<u64>)
    requires limbShift < value.Length && bitShift < LIMB_BITS
    ensures fresh(shifted) && shifted.Length == value.Length
    ensures MovedUp(value[..], shifted[..], limbShift, Pow(2, bitShift), TWO64)
  {
    hide Pow, Kept, Spilt;
    var n := value.Length;
    ghost var v: seq<int> := value[..];
    shifted := new u64[n](_ => 0);
    for destination := 0 to n
      invariant fresh(shifted) && shifted.Length == n && value[..] == v
      invariant forall i :: 0 <= i < destination ==>
                  shifted[i] == if i < limbShift then 0 else UpLimb(v, i - limbShift, bitShift)
    {
      var word := 0;
      if destination >= limbShift {
        var source := destination - limbShift;
        UpLimbFits(v, source, bitShift);
        word := Wrap64(value[source] * Pow(2, bitShift));
        if bitShift != 0 && source >= 1 {
          word := word + value[source - 1] / Pow(2, LIMB_BITS - bitShift);
        }
      }
      shifted[destination] := word;
    }
  }

  ghost function UpLimb(v: seq<int>, i: nat, bitShift: nat): int
    requires i < |v|
  {
    Kept(v[i], Pow(2, bitShift), TWO64) + Spilt(At(v, i - 1), Pow(2, bitShift), TWO64)
  }

  lemma UpLimbFits(v: seq<int>, i: nat, bitShift: nat)
    requires AreLimbs(v) && i < |v| && bitShift < LIMB_BITS
    ensures var word := Wrap64(v[i] * Pow(2, bitShift));
            && 0 <= word < TWO64 && 0 <= UpLimb(v, i, bitShift) < TWO64
            && UpLimb(v, i, bitShift)
               == if bitShift != 0 && i >= 1 then word + v[i - 1] / Pow(2, LIMB_BITS - bitShift) else word
  {
    hide Pow;
    var lift, cut := Pow(2, bitShift), Pow(2, LIMB_BITS - bitShift);
    SplitWord(bitShift);
    PowZero(2);
    UpParts(v[i], At(v, i - 1), lift, cut);
    if bitShift == 0 {
      DivModUnique(At(v, i - 1), TWO64, 0, At(v, i - 1));
    }
  }

  lemma UpParts(x: nat, below: nat, lift: nat, cut: nat)
    requires below < TWO64 && cut > 0 && lift > 0 && lift * cut == TWO64
    ensures Spilt(below, lift, TWO64) == below / cut && 0 <= below / cut < lift
    ensures 0 <= Kept(x, lift, TWO64) <= TWO64 - lift
  {
    DivCancel(below, lift, cut);
    assert lift * below == below * lift;
    DivBetween(below, cut, 0, lift);
    DivCancel(x, lift, cut);
    assert lift * x == x * lift;
    MulMono(lift, x % cut, cut - 1);
    Distribute(lift, cut, 1);
    MulMono(lift, 0, x % cut);
  }

  /** Looks at the source bits that have nowhere to go. */
  method DetectOverflow(value: array<u64>, limbShift: nat, bitShift: nat) returns (overflow: bool)
    requires limbShift < value.Length && bitShift < LIMB_BITS
    ensures overflow == (Lost(value[..], limbShift, Pow(2, bitShift), TWO64) != 0)
  {
    hide Pow, Lost;
    var n := value.Length;
    ghost var v: seq<int> := value[..];
    overflow := false;
    for source := 0 to n
      invariant overflow <==> exists i :: 0 <= i < source && Overflows(v, i, limbShift, bitShift)
    {
      if source + limbShift >= n {
        if value[source] != 0 {
          overflow := true;
        }
      } else if bitShift != 0 && source + limbShift == n - 1 {
        if value[source] / Pow(2, LIMB_BITS - bitShift) != 0 {
          overflow := true;
        }
      }
      assert Overflows(v, source, limbShift, bitShift) ==> overflow;
    }
    OverflowIsLoss(v, limbShift, bitShift);
  }

  /** The limb at `i` has a bit that the shift pushes past the top. */
  ghost predicate Overflows(v: seq<int>, i: nat, limbShift: nat, bitShift: nat)
    requires i < |v| && bitShift < LIMB_BITS
  {
    (i + limbShift >= |v| && v[i] != 0)
    || (bitShift != 0 && i + limbShift == |v| - 1 && v[i] / Pow(2, LIMB_BITS - bitShift) != 0)
  }

  lemma OverflowIsLoss(v: seq<int>, limbShift: nat, bitShift: nat)
    requires AreLimbs(v) && limbShift < |v| && bitShift < LIMB_BITS
    ensures (exists i :: 0 <= i < |v| && Overflows(v, i, limbShift, bitShift))
       <==> Lost(v, limbShift, Pow(2, bitShift), TWO64) != 0
  {
    hide Pow, Value, Spilt;
    var m, lift, cut := |v| - limbShift, Pow(2, bitShift), Pow(2, LIMB_BITS - bitShift);
    var high := v[m..];
    SplitWord(bitShift);
    PowZero(2);
    UpParts(0, v[m - 1], lift, cut);
    ValueBound(high, TWO64);
    MulMono(lift, 0, Value(high, TWO64));
    if bitShift == 0 {
      DivModUnique(v[m - 1], TWO64, 0, v[m - 1]);
    }
    if i :| 0 <= i < |high| && high[i] != 0 {
      SomeDigit(high, i, TWO64);
      MulAtLeast(lift, Value(high, TWO64));
      assert Overflows(v, m + i, limbShift, bitShift);
    } else {
      ValueZeros(high, TWO64);
      assert 0 * lift == 0;
      if bitShift != 0 && v[m - 1] / cut != 0 {
        assert Overflows(v, m - 1, limbShift, bitShift);
      }
      forall i | m <= i < |v| ensures v[i] == 0 {
        assert v[i] == high[i - m];
      }
    }
  }

  // --- To and from a target ---

  /** Limbs that each spell eight bytes spell what the bytes do. */
  lemma {:induction false} Regroup(s: seq<int>, limbs: seq<int>, k: nat)
    requires 8 * k <= |s| && k <= |limbs|
    requires forall l :: 0 <= l < k ==> limbs[l] == Value(s[8 * l..8 * l + 8], 256)
    ensures ValueOf(limbs[..k]) == Value(s[..8 * k], 256)
  {
    hide Value, Pow;
    if k == 0 {
      ValueOfNone(256);
      ValueOfNone(TWO64);
      assert s[..0] == [] && limbs[..0] == [];
    } else {
      var j := k - 1;
      Regroup(s, limbs, j);
      ValueNext(limbs, j, TWO64);
      ValueSplit(s[..8 * k], 8 * j, 256);
      assert s[..8 * k][..8 * j] == s[..8 * j] && s[..8 * k][8 * j..] == s[8 * j..8 * j + 8];
      WordPower();
      PowPow(256, 8, j);
    }
  }

  method FromTarget(target: array<byte>) returns (value: array<u64>)
    requires target.Length == SIZE
    ensures fresh(value) && value.Length == LIMB_COUNT && ValueOf(value[..]) == BigEndian(target[..])
  {
    hide Value, Pow;
    value := new u64[LIMB_COUNT](_ => 0);
    ghost var s := Reversed(target[..]);
    for limb := 0 to 4
      invariant fresh(value) && value.Length == LIMB_COUNT && value[4] == 0
      invariant forall l :: 0 <= l < limb ==> value[l] == Value(s[8 * l..8 * l + 8], 256)
    {
      ghost var group := s[8 * limb..8 * limb + 8];
      var word := 0;
      ValueOfNone(256);
      assert group[..0] == [];
      ghost var before := value[..];
      for k := 0 to 8
        invariant word == Value(group[..k], 256) && value[..] == before
      {
        var source := target.Length - 1 - (limb * 8 + k);
        assert target[source] == group[k];
        ValueNext(group, k, 256);
        word := word + target[source] * Pow(256, k);
      }
      assert group[..8] == group;
      ValueBound(group, 256);
      WordPower();
      value[limb] := word;
      assert forall l :: 0 <= l < limb ==> value[l] == before[l];
    }
    Regroup(s, value[..], 4);
    assert s[..32] == s && s[..SIZE] == s;
    assert value[..] == value[..4] + [0];
    ValueSnoc(value[..4], 0, TWO64);
    assert value[..][..4] == value[..4];
  }

  method ToTarget(value: array<u64>) returns (target: array<byte>)
    requires value.Length == LIMB_COUNT
    ensures fresh(target) && target.Length == SIZE
    ensures BigEndian(target[..]) == ValueOf(value[..]) % Limit()
    ensures ValueOf(value[..]) < Limit() ==> BigEndian(target[..]) == ValueOf(value[..])
  {
    hide Value, Pow, Limit;
    target := new byte[SIZE](_ => 0);
    for limb := 0 to 4
      invariant fresh(target) && target.Length == SIZE
      invariant forall i :: 0 <= i < 8 * limb ==> target[SIZE - 1 - i] == DigitOf(value[i / 8], i % 8)
    {
      var word := value[limb];
      for k := 0 to 8
        invariant fresh(target) && target.Length == SIZE
        invariant forall i :: 0 <= i < 8 * limb + k ==> target[SIZE - 1 - i] == DigitOf(value[i / 8], i % 8)
      {
        target[SIZE - 1 - (limb * 8 + k)] := DigitOf(word, k);
      }
    }
    ghost var s := Reversed(target[..]);
    forall l | 0 <= l < 4 ensures value[l] == Value(s[8 * l..8 * l + 8], 256) {
      forall i | 8 * l <= i < 8 * l + 8 ensures s[i] == DigitOf(value[l], i % 8) {
        assert i / 8 == l;
        assert target[SIZE - 1 - i] == DigitOf(value[i / 8], i % 8);
      }
      WordSpelt(s, value[l], l);
    }
    Regroup(s, value[..], 4);
    assert s[..32] == s && s[..SIZE] == s;
    LowFourLimbs(value[..]);
    assert value[..][..4] == value[..4];
  }

  lemma WordSpelt(s: seq<int>, word: u64, l: nat)
    requires 8 * l + 8 <= |s| && forall i :: 8 * l <= i < 8 * l + 8 ==> s[i] == DigitOf(word, i % 8)
    ensures Value(s[8 * l..8 * l + 8], 256) == word
  {
    hide Value, Pow, DigitOf;
    assert s[8 * l..8 * l + 8] == seq(8, k requires 0 <= k < 8 => DigitOf(word, k)) by {
      forall k | 0 <= k < 8 ensures s[8 * l..8 * l + 8][k] == DigitOf(word, k) {
        assert s[8 * l + k] == DigitOf(word, (8 * l + k) % 8);
      }
    }
    DigitsSpell(word, 8);
    WordPower();
    DivModUnique(word, TWO64, 0, word);
  }

  function DigitOf(word: nat, k: nat): byte {
    word / Pow(256, k) % 256
  }

  lemma {:induction false} DigitsSpell(word: nat, k: nat)
    ensures Value(seq(k, i requires 0 <= i < k => DigitOf(word, i)), 256) == word % Pow(256, k)
  {
    hide Value, Pow;
    var s := seq(k, i requires 0 <= i < k => DigitOf(word, i));
    if k == 0 {
      ValueOfNone(256);
      PowZero(256);
      assert s == [];
    } else {
      var j := k - 1;
      var t := seq(j, i requires 0 <= i < j => DigitOf(word, i));
      DigitsSpell(word, j);
      assert s == t + [DigitOf(word, j)];
      ValueSnoc(t, DigitOf(word, j), 256);
      PowNext(256, j);
      NextDigit(word, Pow(256, j));
    }
  }

  lemma NextDigit(word: nat, p: nat)
    requires p > 0
    ensures word % (256 * p) == word % p + (word / p % 256) * p
  {
    var q := word / p;
    assert word == p * q + word % p;
    assert q == 256 * (q / 256) + q % 256;
    Distribute(p, 256 * (q / 256), q % 256);
    MulAssoc(p, 256, q / 256);
    MulMono(p, q % 256, 255);
    MulMono(p, 0, q % 256);
    DivModUnique(word, 256 * p, q / 256, word % p + (q % 256) * p);
  }

  lemma LowFourLimbs(v: seq<int>)
    requires AreLimbs(v) && |v| == LIMB_COUNT
    ensures ValueOf(v[..4]) == ValueOf(v) % Limit()
    ensures ValueOf(v) < Limit() ==> ValueOf(v) % Limit() == ValueOf(v)
  {
    hide Value, Pow, Limit;
    assert v == v[..4] + [v[4]];
    ValueSnoc(v[..4], v[4], TWO64);
    ValueBound(v[..4], TWO64);
    ValueBound(v, TWO64);
    LimitIsFourLimbs();
    DivModUnique(ValueOf(v), Limit(), v[4], ValueOf(v[..4]));
    if ValueOf(v) < Limit() {
      DivModUnique(ValueOf(v), Limit(), 0, ValueOf(v));
    }
  }

  lemma LimitIsFourLimbs()
    ensures Limit() == Pow(TWO64, 4) > 0
  {
    hide Pow;
    WordPower();
    PowPow(256, 8, 4);
  }
}
