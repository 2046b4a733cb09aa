/** Accumulated work: 256-bit amounts held as bytes, most significant first, and changed in place. */
module Works {
  import opened Arith
  import opened Digits
  import opened IndexTree
  import opened Primitives

  const SIZE: nat := 32

  /** One more than the largest amount. */
  ghost function Limit(): (r: nat)
    ensures r > 0
  {
    Pow(256, SIZE)
  }

  /** `remainder >= aligned`: byte by byte from the top. */
  method AtLeast(a: array<byte>, b: array<byte>) returns (r: bool)
    requires a.Length == b.Length
    ensures r == (BigEndian(a[..]) >= BigEndian(b[..]))
  {
    hide BigEndian;
    for i := 0 to a.Length
      invariant a[..i] == b[..i]
    {
      if a[i] < b[i] {
        BigEndianCompare(a[..], b[..], i);
        return false;
      }
      if a[i] > b[i] {
        BigEndianCompare(b[..], a[..], i);
        return true;
      }
    }
    assert a[..] == a[..a.Length] == b[..b.Length] == b[..];
    return true;
  }

  /** Subtraction with borrow, from the last byte up. */
  method Subtract(minuend: array<byte>, subtrahend: array<byte>)
    requires minuend != subtrahend && minuend.Length == subtrahend.Length
    requires BigEndian(subtrahend[..]) <= BigEndian(minuend[..])
    modifies minuend
    ensures BigEndian(minuend[..]) == old(BigEndian(minuend[..])) - BigEndian(subtrahend[..])
  {
    hide Low, Pow;
    var n := minuend.Length;
    ghost var m0: seq<int>, s0: seq<int> := minuend[..], subtrahend[..];
    var borrow := 0;
    LowNone(m0);
    LowNone(s0);
    for k := 0 to n
      invariant borrow == 0 || borrow == 1
      invariant minuend[..n - k] == m0[..n - k]
      invariant Low(minuend[..], k) == Low(m0, k) - Low(s0, k) + borrow * Pow(256, k)
    {
      var position := n - 1 - k;
      ghost var before: seq<int> := minuend[..];
      var left, right := minuend[position], subtrahend[position] + borrow;
      assert left == m0[..n - k][position];
      var borrowed := borrow;
      borrow := if left < right then 1 else 0;
      minuend[position] := left + borrow * 256 - right;
      assert minuend[..] == before[position := left + borrow * 256 - right];
      LowSame(before, minuend[..], k);
      LowNext(minuend[..], k);
      LowNext(m0, k);
      LowNext(s0, k);
      PowNext(256, k);
      SubtractStep(left, subtrahend[position], borrowed, borrow, Pow(256, k));
      assert minuend[..n - k - 1] == before[..n - k][..n - k - 1];
    }
    LowBound(minuend[..], n);
    CarryOut(borrow, Pow(256, n));
  }

  lemma SubtractStep(left: int, right: int, borrowed: int, borrow: int, p: int)
    ensures (left + borrow * 256 - (right + borrowed)) * p == left * p - right * p - borrowed * p + borrow * (256 * p)
  {
  }

  lemma CarryOut(carry: int, p: int)
    ensures carry == 0 ==> carry * p == 0
    ensures carry == 1 ==> carry * p == p
  {
  }

  /** Addition with carry that stops at the largest amount instead of wrapping. */
  method Add(amount: array<byte>, other: array<byte>)
    requires amount.Length == other.Length
    modifies amount
    ensures BigEndian(amount[..]) == Saturated(old(BigEndian(amount[..])) + old(BigEndian(other[..])), amount.Length)
  {
    hide Low, Pow;
    var n := amount.Length;
    ghost var a0: seq<int>, b0: seq<int> := amount[..], other[..];
    var carry := 0;
    LowNone(a0);
    LowNone(b0);
    for k := 0 to n
      invariant carry == 0 || carry == 1
      invariant amount[..n - k] == a0[..n - k] && other[..n - k] == b0[..n - k]
      invariant Low(amount[..], k) + carry * Pow(256, k) == Low(a0, k) + Low(b0, k)
    {
      var position := n - 1 - k;
      ghost var before: seq<int> := amount[..];
      assert amount[position] == a0[..n - k][position] && other[position] == b0[..n - k][position];
      var sum := amount[position] + other[position] + carry;
      var carried := carry;
      amount[position] := sum % 256;
      carry := sum / 256;
      assert amount[..] == before[position := sum % 256];
      LowSame(before, amount[..], k);
      LowNext(amount[..], k);
      LowNext(a0, k);
      LowNext(b0, k);
      PowNext(256, k);
      AddStep(a0[position], b0[position], carried, Pow(256, k));
      assert amount[..n - k - 1] == before[..n - k][..n - k - 1];
      assert other[..n - k - 1] == b0[..n - k][..n - k - 1];
    }
    LowBound(amount[..], n);
    CarryOut(carry, Pow(256, n));
    if carry != 0 {
      forall i | 0 <= i < n {
        amount[i] := 0xFF;
      }
      BigEndianFull(amount[..]);
    }
  }

  function Saturated(x: int, n: nat): int {
    if x >= Pow(256, n) then Pow(256, n) - 1 else x
  }

  /** The bytes saturate where the totals of the header tree do. */
  lemma TotalsSaturateAlike(a: nat, b: nat)
    ensures Saturated(a + b, SIZE) == AddWork(a, b)
  {
    hide Pow;
    EightBytes();
    PowAdd(256, 8, 8);
    PowAdd(256, 16, 16);
  }

  lemma EightBytes()
    ensures Pow(256, 8) == 0x1_0000_0000_0000_0000
  {
  }

  lemma AddStep(x: int, y: int, carried: int, p: int)
    ensures var sum := x + y + carried;
            (sum % 256) * p + (sum / 256) * (256 * p) == x * p + y * p + carried * p
  {
    var sum := x + y + carried;
    assert (sum % 256) * p + (sum / 256) * (256 * p) == (sum % 256 + 256 * (sum / 256)) * p;
  }

  // --- Shifts and bits ---

  method ShiftLeft(value: array<byte>, shift: nat)
    modifies value
    ensures BigEndian(value[..]) == (old(BigEndian(value[..])) * Pow(2, shift)) % Pow(256, value.Length)
  {
    hide BigEndian, Pow;
    var n := value.Length;
    ghost var v: seq<int> := value[..];
    if shift == 0 {
      ShiftByNone(v);
      return;
    }
    if shift >= n * 8 {
      forall i | 0 <= i < n {
        value[i] := 0;
      }
      BigEndianZero(value[..]);
      ShiftedOut(BigEndian(v), shift, n);
      return;
    }
    var byteShift, bitShift := shift / 8, shift % 8;
    var shifted := new byte[n](_ => 0);
    var position := 0;
    while position + byteShift < n
      invariant position + byteShift <= n
      invariant forall i :: 0 <= i < n ==>
                  shifted[i] == if i < position then ShiftedByte(v, i + byteShift, bitShift) else 0
      invariant value[..] == v
    {
      var source := position + byteShift;
      var word := value[source] * Pow(2, bitShift);
      if bitShift != 0 && source + 1 < n {
        // The shifted byte leaves the low bits clear, so the union is the sum.
        word := word + value[source + 1] / Pow(2, 8 - bitShift);
      }
      WordByte(v, source, bitShift);
      shifted[position] := word % 256;
      position := position + 1;
    }
    forall i | 0 <= i < n {
      value[i] := shifted[i];
    }
    ShiftLeftValue(v, value[..], byteShift, bitShift);
  }

  /** The byte that lands where `source` came from. */
  ghost function ShiftedByte(v: seq<int>, source: nat, bitShift: nat): int
    requires source < |v|
  {
    Kept(v[source], Pow(2, bitShift), 256)
    + (if source + 1 < |v| then Spilt(v[source + 1], Pow(2, bitShift), 256) else 0)
  }

  lemma WordByte(v: seq<int>, source: nat, bitShift: nat)
    requires AreBytes(v) && source < |v| && bitShift < 8
    ensures var word := v[source] * Pow(2, bitShift)
                      + (if bitShift != 0 && source + 1 < |v| then v[source + 1] / Pow(2, 8 - bitShift) else 0);
            word % 256 == ShiftedByte(v, source, bitShift)
  {
    hide Pow;
    var p, q := Pow(2, bitShift), Pow(2, 8 - bitShift);
    SplitByte(bitShift);
    if source + 1 < |v| {
      DivCancel(v[source + 1], p, q);
      assert p * v[source + 1] == v[source + 1] * p;
      NarrowPart(v[source + 1], p, q);
    }
    LowBitsClear(v[source], p, q, if bitShift != 0 && source + 1 < |v| then v[source + 1] / q else 0);
  }

  lemma SplitByte(bitShift: nat)
    requires bitShift <= 8
    ensures Pow(2, bitShift) * Pow(2, 8 - bitShift) == 256
    ensures bitShift == 0 ==> Pow(2, bitShift) == 1 && Pow(2, 8 - bitShift) == 256
  {
    PowAdd(2, bitShift, 8 - bitShift);
    assert Pow(2, 8) == 256;
  }

  lemma NarrowPart(x: int, p: nat, q: nat)
    requires 0 <= x < 256 && p * q == 256 && p > 0 && q > 0
    ensures 0 <= x / q < p
  {
    DivMono(x, 255, q);
    DivBounds(255, q, p - 1);
    Distribute(q, p, 1);
  }

  /** A multiple of `p`, and something below `p`, add up without a carry into the bytes above. */
  lemma LowBitsClear(x: int, p: nat, q: nat, low: int)
    requires 0 <= x && p * q == 256 && p > 0 && q > 0 && 0 <= low < p
    ensures (x * p + low) % 256 == (x * p) % 256 + low
  {
    DivCancel(x, p, q);
    var r := x % q;
    MulMono(p, r, q - 1);
    Distribute(p, q, 1);
    assert x * p == 256 * (x / q) + p * r by {
      Distribute(p, q * (x / q), r);
      assert p * (q * (x / q)) == (p * q) * (x / q);
    }
    DivModUnique(x * p + low, 256, x / q, p * r + low);
    DivModUnique(x * p, 256, x / q, p * r);
  }

  lemma ShiftByNone(v: seq<int>)
    requires AreBytes(v)
    ensures BigEndian(v) == (BigEndian(v) * Pow(2, 0)) % Pow(256, |v|)
  {
    hide Pow, BigEndian;
    BigEndianBound(v);
    PowZero(2);
    DivModUnique(BigEndian(v), Pow(256, |v|), 0, BigEndian(v));
  }

  lemma BytePower(n: nat)
    ensures Pow(2, 8 * n) == Pow(256, n)
  {
    PowPow(2, 8, n);
    assert Pow(2, 8) == 256;
  }

  lemma ShiftedOut(x: int, shift: nat, n: nat)
    requires shift >= n * 8
    ensures (x * Pow(2, shift)) % Pow(256, n) == 0
  {
    hide Pow;
    BytePower(n);
    PowAdd(2, 8 * n, shift - 8 * n);
    var p, q := Pow(256, n), Pow(2, shift - 8 * n);
    assert x * (p * q) == p * (x * q);
    DivModUnique(x * Pow(2, shift), p, x * q, 0);
  }

  lemma ShiftLeftValue(v: seq<int>, w: seq<int>, byteShift: nat, bitShift: nat)
    requires AreBytes(v) && |v| == |w| && byteShift < |v| && bitShift < 8
    requires forall i :: 0 <= i < |v| ==>
               w[i] == if i + byteShift < |v| then ShiftedByte(v, i + byteShift, bitShift) else 0
    ensures BigEndian(w) == (BigEndian(v) * Pow(2, 8 * byteShift + bitShift)) % Pow(256, |v|)
  {
    hide Pow, Value, ShiftedByte, MovedUp, Lost;
    var n, lift, s, t := |v|, Pow(2, bitShift), Reversed(v), Reversed(w);
    ShiftedDigits(v, w, byteShift, bitShift);
    MovedUpValue(s, t, byteShift, lift, 256);
    assert s[..n] == s && t[..n] == t;
    DigitsAfterShift(w, v, byteShift, bitShift);
    BigEndianBound(w);
    BytePower(byteShift);
    PowAdd(2, 8 * byteShift, bitShift);
    DivModUnique(BigEndian(v) * Pow(2, 8 * byteShift + bitShift), Pow(256, n), Lost(s, byteShift, lift, 256),
                 BigEndian(w));
  }

  lemma BigEndianBound(s: seq<int>)
    requires AreBytes(s)
    ensures 0 <= BigEndian(s) < Pow(256, |s|)
  {
    LowBound(s, |s|);
  }

  lemma ShiftedDigits(v: seq<int>, w: seq<int>, byteShift: nat, bitShift: nat)
    requires |v| == |w| && byteShift < |v|
    requires forall i :: 0 <= i < |v| ==>
               w[i] == if i + byteShift < |v| then ShiftedByte(v, i + byteShift, bitShift) else 0
    ensures MovedUp(Reversed(v), Reversed(w), byteShift, Pow(2, bitShift), 256)
  {
    hide Pow, Kept, Spilt;
    var n, lift, s, t := |v|, Pow(2, bitShift), Reversed(v), Reversed(w);
    SpiltNone(lift, 256);
    forall i | byteShift <= i < n
      ensures t[i] == Kept(s[i - byteShift], lift, 256) + Spilt(At(s, i - byteShift - 1), lift, 256)
    {
      assert t[i] == w[n - 1 - i] == ShiftedByte(v, n - 1 - i + byteShift, bitShift);
    }
  }

  lemma DigitsAfterShift(w: seq<int>, v: seq<int>, byteShift: nat, bitShift: nat)
    requires AreBytes(v) && |v| == |w| && byteShift < |v| && bitShift < 8
    requires forall i :: 0 <= i < |v| ==>
               w[i] == if i + byteShift < |v| then ShiftedByte(v, i + byteShift, bitShift) else 0
    ensures AreBytes(w)
  {
    hide Pow;
    forall i | 0 <= i < |w| ensures 0 <= w[i] < 256 {
      if i + byteShift < |v| {
        WordByte(v, i + byteShift, bitShift);
      }
    }
  }

  function BitWidth(x: nat): (w: nat)
    ensures x < Pow(2, w) && (w > 0 ==> Pow(2, w - 1) <= x)
  {
    if x == 0 then 0 else
      var half := BitWidth(x / 2);
      assert Pow(2, half + 1) == 2 * Pow(2, half);
      half + 1
  }

  lemma ByteWidth(x: byte)
    ensures BitWidth(x) <= 8
  {
    assert Pow(2, 8) == 256;
    if BitWidth(x) > 8 {
      PowMono(2, 8, BitWidth(x) - 1);
    }
  }

  /** One past the highest set bit. */
  ghost predicate IsBitLength(x: int, r: nat) {
    x < Pow(2, r) && (r > 0 ==> Pow(2, r - 1) <= x)
  }

  method BitLength(value: array<byte>) returns (r: nat)
    ensures IsBitLength(BigEndian(value[..]), r) && r <= 8 * value.Length
  {
    hide BigEndian, Pow, IsBitLength, BitWidth;
    for position := 0 to value.Length
      invariant forall i :: 0 <= i < position ==> value[i] == 0
    {
      if value[position] != 0 {
        BitLengthAt(value[..], position);
        ByteWidth(value[position]);
        return (value.Length - 1 - position) * 8 + BitWidth(value[position]);
      }
    }
    BitLengthZero(value[..]);
    return 0;
  }

  lemma BitLengthZero(v: seq<int>)
    requires forall i :: 0 <= i < |v| ==> v[i] == 0
    ensures IsBitLength(BigEndian(v), 0)
  {
    hide BigEndian;
    BigEndianZero(v);
  }

  lemma BitLengthAt(v: seq<int>, position: nat)
    requires AreBytes(v) && position < |v| && v[position] != 0 && forall i :: 0 <= i < position ==> v[i] == 0
    ensures IsBitLength(BigEndian(v), (|v| - 1 - position) * 8 + BitWidth(v[position]))
  {
    hide BigEndian, Pow, BitWidth, Low;
    var j, d, w := |v| - 1 - position, v[position], BitWidth(v[position]);
    LeadingZeros(v, j + 1);
    LowNext(v, j);
    LowBound(v, j);
    BytePower(j);
    PowAdd(2, 8 * j, w);
    BitWidthPositive(d);
    PowAdd(2, 8 * j, w - 1);
    MulMono(Pow(256, j), d + 1, Pow(2, w));
    Distribute(Pow(256, j), d, 1);
    MulMono(Pow(256, j), Pow(2, w - 1), d);
  }

  lemma BitWidthPositive(x: nat)
    ensures x > 0 ==> BitWidth(x) > 0
  {
  }

  lemma LeadingZeros(v: seq<int>, k: nat)
    requires k <= |v| && forall i :: 0 <= i < |v| - k ==> v[i] == 0
    ensures BigEndian(v) == Low(v, k)
  {
    hide Value;
    var zeros := seq(|v|, _ => 0);
    assert zeros[..|v| - k] == v[..|v| - k];
    LowDiffers(v, zeros, k);
    BigEndianZero(zeros);
    ValueZeros(Reversed(zeros)[..k], 256);
  }

  /** The byte with one bit set. */
  function OrBit(x: byte, b: nat): (r: byte)
    requires b < 8
    ensures r == if (x / Pow(2, b)) % 2 == 1 then x else x + Pow(2, b)
  {
    OrBitFits(x, b);
    if (x / Pow(2, b)) % 2 == 1 then x else x + Pow(2, b)
  }

  lemma OrBitFits(x: byte, b: nat)
    requires b < 8
    ensures (x / Pow(2, b)) % 2 == 0 ==> x + Pow(2, b) < 256
  {
    hide Pow;
    SplitByte(b);
    PowNext(2, 7 - b);
    EvenQuotientFits(x, Pow(2, b), Pow(2, 7 - b));
  }

  lemma EvenQuotientFits(x: byte, p: nat, h: nat)
    requires p > 0 && h > 0 && p * (2 * h) == 256
    ensures (x / p) % 2 == 0 ==> x + p < 256
  {
    NarrowQuotient(x, p, 2 * h);
    if (x / p) % 2 == 0 {
      MulMono(p, x / p + 2, 2 * h);
      Distribute(p, x / p, 2);
    }
  }

  lemma NarrowQuotient(x: int, p: nat, q: nat)
    requires 0 <= x < 256 && p * q == 256 && p > 0 && q > 0
    ensures 0 <= x / p < q && x < p * (x / p) + p
  {
    assert q * p == 256;
    NarrowPart(x, q, p);
  }

  method SetBit(value: array<byte>, index: nat)
    requires index < 8 * value.Length
    modifies value
    ensures var v := old(BigEndian(value[..]));
            BigEndian(value[..]) == if (v / Pow(2, index)) % 2 == 1 then v else v + Pow(2, index)
  {
    hide BigEndian, Pow;
    ghost var v: seq<int> := value[..];
    var position := value.Length - 1 - index / 8;
    value[position] := OrBit(value[position], index % 8);
    assert value[..] == v[position := value[position]];
    BigEndianUpdate(v, position, value[position]);
    BitOfByte(v, index);
    BytePower(index / 8);
    PowAdd(2, 8 * (index / 8), index % 8);
  }

  /** A bit of the number is a bit of the byte that holds it. */
  lemma BitOfByte(v: seq<int>, index: nat)
    requires AreBytes(v) && index < 8 * |v|
    ensures (BigEndian(v) / Pow(2, index)) % 2 == (v[|v| - 1 - index / 8] / Pow(2, index % 8)) % 2
  {
    hide Pow, Value, BigEndian, Reversed;
    var s, j, b := Reversed(v), index / 8, index % 8;
    DigitApart(v, j);
    BitPowers(index);
    BitStep(BigEndian(v), Value(s[..j], 256), s[j], Value(s[j + 1..], 256), Pow(256, j), Pow(2, b), Pow(2, 7 - b));
  }

  lemma BitPowers(index: nat)
    ensures Pow(2, index) == Pow(256, index / 8) * Pow(2, index % 8)
    ensures Pow(2, index % 8) * (2 * Pow(2, 7 - index % 8)) == 256
  {
    hide Pow;
    BytePower(index / 8);
    PowAdd(2, 8 * (index / 8), index % 8);
    SplitByte(index % 8);
    PowNext(2, 7 - index % 8);
  }

  lemma DigitApart(v: seq<int>, j: nat)
    requires AreBytes(v) && j < |v|
    ensures var s := Reversed(v);
            && |s| == |v| && s[j] == v[|v| - 1 - j]
            && 0 <= Value(s[..j], 256) < Pow(256, j) && 0 <= Value(s[j + 1..], 256) && BigEndian(v) >= 0
            && BigEndian(v) == Value(s[..j], 256) + s[j] * Pow(256, j) + (256 * Pow(256, j)) * Value(s[j + 1..], 256)
  {
    hide Pow, Value;
    var s := Reversed(v);
    assert s[..|s|] == s;
    ValueSplit(s, j + 1, 256);
    ValueNext(s, j, 256);
    PowNext(256, j);
    ValueBound(s, 256);
    ValueBound(s[..j], 256);
    ValueBound(s[j + 1..], 256);
  }

  lemma BitStep(x: nat, low: int, d: int, high: nat, p: nat, q: nat, h: nat)
    requires p > 0 && q > 0 && q * (2 * h) == 256
    requires 0 <= low < p && 0 <= d && x == low + d * p + (256 * p) * high
    ensures (x / (p * q)) % 2 == (d / q) % 2
  {
    assert x == p * (d + 256 * high) + low by {
      Distribute(p, d, 256 * high);
      assert p * (256 * high) == (256 * p) * high;
    }
    DivModUnique(x, p, d + 256 * high, low);
    DivDiv(x, p, q);
    HighBitsEven(d, high, q, h);
  }

  lemma HighBitsEven(d: nat, high: nat, q: nat, h: nat)
    requires q > 0 && q * (2 * h) == 256
    ensures ((d + 256 * high) / q) % 2 == (d / q) % 2
  {
    var e := 2 * (h * high);
    MulAssoc(q, 2 * h, high);
    MulAssoc(2, h, high);
    Distribute(q, d / q, e);
    DivModUnique(d + 256 * high, q, d / q + e, d % q);
  }

  // --- The work of a target ---

  /** Adds one; `carried` when every byte was already full. */
  method Increment(value: array<byte>) returns (carried: bool)
    modifies value
    ensures carried <==> old(BigEndian(value[..])) == Pow(256, value.Length) - 1
    ensures !carried ==> BigEndian(value[..]) == old(BigEndian(value[..])) + 1
  {
    hide Low, Pow;
    var n := value.Length;
    ghost var v: seq<int> := value[..];
    carried := true;
    var k := 0;
    LowNone(v);
    PowZero(256);
    while carried && k < n
      invariant k <= n && value[..n - k] == v[..n - k]
      invariant Low(value[..], k) + (if carried then Pow(256, k) else 0) == Low(v, k) + 1
      decreases n - k
    {
      var position := n - 1 - k;
      ghost var before: seq<int> := value[..];
      assert value[position] == v[..n - k][position];
      carried := value[position] == 0xFF;
      var digit: int := value[position];
      value[position] := (digit + 1) % 256;
      assert value[..] == before[position := value[position]];
      LowSame(before, value[..], k);
      LowNext(value[..], k);
      LowNext(v, k);
      PowNext(256, k);
      IncrementStep(v[position], Pow(256, k));
      k := k + 1;
      assert value[..n - k] == before[..n - k + 1][..n - k];
    }
    LowDiffers(value[..], v, k);
    LowBound(value[..], n);
    LowBound(v, n);
  }

  lemma IncrementStep(d: int, p: int)
    requires 0 <= d <= 255
    ensures d == 255 ==> 0 * p + 256 * p == d * p + p
    ensures d < 255 ==> ((d + 1) % 256) * p == d * p + p
  {
  }

  method Complement(value: array<byte>)
    modifies value
    ensures BigEndian(value[..]) == Pow(256, value.Length) - 1 - old(BigEndian(value[..]))
  {
    hide Low;
    ghost var v: seq<int> := value[..];
    for i := 0 to value.Length
      invariant forall j :: 0 <= j < value.Length ==> value[j] == if j < i then 255 - v[j] else v[j]
    {
      value[i] := 255 - value[i];
    }
    ComplementValue(v, value[..], |v|);
  }

  lemma {:induction false} ComplementValue(v: seq<int>, w: seq<int>, k: nat)
    requires |v| == |w| && k <= |v| && forall i :: 0 <= i < |v| ==> w[i] == 255 - v[i]
    ensures Low(v, k) + Low(w, k) == Pow(256, k) - 1
  {
    hide Low, Pow;
    if k == 0 {
      LowNone(v);
      LowNone(w);
      PowZero(256);
    } else {
      ComplementValue(v, w, k - 1);
      LowNext(v, k - 1);
      LowNext(w, k - 1);
      PowNext(256, k - 1);
      Distribute(Pow(256, k - 1), v[|v| - k], w[|v| - k]);
    }
  }

  /** Restoring long division, highest quotient bit first, never leaving the width of its operands. */
  method Divide(dividend: array<byte>, divisor: array<byte>) returns (quotient: array<byte>)
    requires dividend.Length == divisor.Length && BigEndian(divisor[..]) > 0
    ensures fresh(quotient) && quotient.Length == dividend.Length
    ensures BigEndian(quotient[..]) == BigEndian(dividend[..]) / BigEndian(divisor[..])
  {
    hide BigEndian, Pow, IsBitLength, DivideState;
    var n := dividend.Length;
    ghost var x, d := BigEndian(dividend[..]), BigEndian(divisor[..]);
    quotient := new byte[n](_ => 0);
    BigEndianZero(quotient[..]);
    var remainder := new byte[n];
    CopyBytes(dividend, remainder);
    var dividendBits := BitLength(dividend);
    var divisorBits := BitLength(divisor);
    BigEndianBound(dividend[..]);
    BitsOrder(x, dividendBits, d, divisorBits);
    if dividendBits >= divisorBits {
      var shift := dividendBits - divisorBits + 1;
      DivideStarts(x, d, shift);
      while shift > 0
        invariant 0 <= shift <= dividendBits - divisorBits + 1
        invariant fresh(quotient) && fresh(remainder) && quotient != remainder
        invariant DivideState(x, d, BigEndian(quotient[..]), BigEndian(remainder[..]), shift)
      {
        shift := shift - 1;
        AlignedFits(d, dividendBits, divisorBits, shift, n);
        DivideRound(quotient, remainder, divisor, shift, x);
      }
      DivideEnds(x, d, BigEndian(quotient[..]), BigEndian(remainder[..]));
    } else {
      DivideNothing(x, d);
    }
  }

  /** One quotient bit: the aligned divisor comes off the remainder if it fits. */
  method DivideRound(quotient: array<byte>, remainder: array<byte>, divisor: array<byte>, shift: nat, ghost x: int)
    requires quotient.Length == remainder.Length == divisor.Length && shift < 8 * quotient.Length
    requires quotient != remainder && quotient != divisor && remainder != divisor && BigEndian(divisor[..]) > 0
    requires (BigEndian(divisor[..]) * Pow(2, shift)) % Pow(256, divisor.Length)
          == BigEndian(divisor[..]) * Pow(2, shift)
    requires DivideState(x, BigEndian(divisor[..]), BigEndian(quotient[..]), BigEndian(remainder[..]), shift + 1)
    modifies quotient, remainder
    ensures DivideState(x, BigEndian(divisor[..]), BigEndian(quotient[..]), BigEndian(remainder[..]), shift)
  {
    hide BigEndian, Pow, DivideState;
    DivideStep(x, BigEndian(divisor[..]), BigEndian(quotient[..]), BigEndian(remainder[..]), shift);
    var aligned := new byte[divisor.Length];
    CopyBytes(divisor, aligned);
    ShiftLeft(aligned, shift);
    var fits := AtLeast(remainder, aligned);
    if fits {
      Subtract(remainder, aligned);
      SetBit(quotient, shift);
    }
  }

  method CopyBytes(from: array<byte>, into: array<byte>)
    requires from.Length == into.Length
    modifies into
    ensures into[..] == old(from[..])
  {
    forall i | 0 <= i < from.Length {
      into[i] := from[i];
    }
  }

  /** Part way: quotient and remainder recombine, and the quotient's remaining bits are clear. */
  ghost predicate DivideState(x: int, d: int, q: int, r: int, shift: nat) {
    && x == q * d + r && 0 <= q && 0 <= r < d * Pow(2, shift) && q % Pow(2, shift) == 0
  }

  lemma DivideStarts(x: int, d: int, shift: nat)
    requires 0 <= x < d * Pow(2, shift)
    ensures DivideState(x, d, 0, x, shift)
  {
    hide Pow;
    assert 0 * d == 0;
    DivModUnique(0, Pow(2, shift), 0, 0);
  }

  lemma DivideStep(x: int, d: int, q: int, r: int, shift: nat)
    requires d > 0 && DivideState(x, d, q, r, shift + 1)
    ensures (q / Pow(2, shift)) % 2 == 0
    ensures r < d * Pow(2, shift) ==> DivideState(x, d, q, r, shift)
    ensures r >= d * Pow(2, shift) ==> DivideState(x, d, q + Pow(2, shift), r - d * Pow(2, shift), shift)
  {
    hide Pow;
    var p := Pow(2, shift);
    PowNext(2, shift);
    var k := q / (2 * p);
    assert q == 2 * p * k;
    assert q == p * (2 * k);
    DivModUnique(q, p, 2 * k, 0);
    Distribute(p, 2 * k, 1);
    DivModUnique(q + p, p, 2 * k + 1, 0);
    Distribute(d, q, p);
    assert d * (2 * p) == d * p + d * p;
  }

  lemma DivideEnds(x: int, d: int, q: int, r: int)
    requires d > 0 && DivideState(x, d, q, r, 0)
    ensures q == x / d
  {
    PowZero(2);
    assert q * d == d * q;
    DivModUnique(x, d, q, r);
  }

  lemma DivideNothing(x: int, d: int)
    requires 0 <= x < d
    ensures x / d == 0
  {
  }

  lemma BitsOrder(x: int, xBits: nat, d: int, dBits: nat)
    requires IsBitLength(x, xBits) && IsBitLength(d, dBits) && x >= 0 && d > 0
    ensures xBits >= dBits ==> x < d * Pow(2, xBits - dBits + 1)
    ensures xBits < dBits ==> x < d
  {
    hide Pow;
    PowZero(2);
    if xBits >= dBits {
      PowAdd(2, dBits - 1, xBits - dBits + 1);
      MulMono(Pow(2, xBits - dBits + 1), Pow(2, dBits - 1), d);
    } else {
      PowMono(2, xBits, dBits - 1);
    }
  }

  lemma AlignedFits(d: int, xBits: nat, dBits: nat, shift: nat, n: nat)
    requires IsBitLength(d, dBits) && d > 0 && shift + dBits <= xBits <= 8 * n
    ensures (d * Pow(2, shift)) % Pow(256, n) == d * Pow(2, shift) && shift < 8 * n
  {
    hide Pow;
    PowZero(2);
    PowAdd(2, shift, dBits);
    PowMono(2, shift + dBits, 8 * n);
    BytePower(n);
    ProductFits(d, Pow(2, shift), Pow(2, dBits), Pow(256, n));
    assert shift + dBits <= 8 * n && dBits > 0;
  }

  lemma ProductFits(d: int, p: nat, q: nat, top: nat)
    requires 0 < d < q && p > 0 && p * q <= top
    ensures 0 <= d * p < top && (d * p) % top == d * p
  {
    MulMono(p, d + 1, q);
    Distribute(p, d, 1);
    MulMono(p, 0, d);
    DivModUnique(d * p, top, 0, d * p);
  }

  /** The expected number of hashes behind a target: how often `t + 1` goes into 2^256. */
  ghost function WorkOf(t: nat, n: nat): nat {
    if t == 0 then 0 else Pow(256, n) / (t + 1)
  }

  method OfTarget(target: array<byte>) returns (work: array<byte>)
    requires target.Length == SIZE
    ensures fresh(work) && work.Length == SIZE
    ensures BigEndian(target[..]) >= 0 && BigEndian(work[..]) == WorkOf(BigEndian(target[..]), SIZE)
  {
    hide BigEndian, Pow;
    var n := target.Length;
    ghost var t := BigEndian(target[..]);
    BigEndianBound(target[..]);
    var zero := new byte[n](_ => 0);
    BigEndianZero(zero[..]);
    var isZero := AtLeast(zero, target);
    if isZero {
      return zero;
    }
    var one := FromSmall(1);
    var divisor := new byte[n];
    CopyBytes(target, divisor);
    var carried := Increment(divisor);
    if carried {
      WorkOfFull(n);
      return one;
    }
    var dividend := new byte[n];
    CopyBytes(target, dividend);
    Complement(dividend);
    work := Divide(dividend, divisor);
    WorkByParts(t, n);
    Add(work, one);
  }

  lemma WorkOfFull(n: nat)
    ensures Pow(256, n) / Pow(256, n) == 1
  {
    DivModUnique(Pow(256, n), Pow(256, n), 1, 0);
  }

  /** 2^256 is the complement of the target and one divisor more, so nothing wider is ever needed. */
  lemma WorkByParts(t: nat, n: nat)
    requires 0 < t < Pow(256, n) - 1
    ensures var q := (Pow(256, n) - 1 - t) / (t + 1);
            q >= 0 && Saturated(q + 1, n) == WorkOf(t, n)
  {
    hide Pow;
    var p, d := Pow(256, n), t + 1;
    var q, r := (p - 1 - t) / d, (p - 1 - t) % d;
    Distribute(d, q, 1);
    DivModUnique(p, d, q + 1, r);
    MulMono(q + 1, 2, d);
    assert d * (q + 1) == (q + 1) * d;
  }

  method FromSmall(x: byte) returns (work: array<byte>)
    ensures fresh(work) && work.Length == SIZE && BigEndian(work[..]) == x
  {
    hide BigEndian, Pow;
    work := new byte[SIZE](_ => 0);
    ghost var zeros: seq<int> := work[..];
    BigEndianZero(work[..]);
    work[SIZE - 1] := x;
    assert work[..] == zeros[SIZE - 1 := x];
    BigEndianUpdate(zeros, SIZE - 1, x);
    PowZero(256);
  }
}
