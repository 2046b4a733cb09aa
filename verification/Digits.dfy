/** Numbers written as digits in a base, least significant first, and the digit-by-digit operations on them. */
module Digits {
  import opened Arith

  ghost predicate AreDigits(s: seq<int>, b: nat) {
    forall i :: 0 <= i < |s| ==> 0 <= s[i] < b
  }

  /** The number the digits spell. */
  ghost function Value(s: seq<int>, b: nat): int {
    if s == [] then 0 else Value(s[..|s| - 1], b) + s[|s| - 1] * Pow(b, |s| - 1)
  }

  lemma ValueSnoc(s: seq<int>, d: int, b: nat)
    ensures Value(s + [d], b) == Value(s, b) + d * Pow(b, |s|)
  {
    assert (s + [d])[..|s|] == s;
  }

  lemma ValueNext(s: seq<int>, k: nat, b: nat)
    requires k < |s|
    ensures Value(s[..k + 1], b) == Value(s[..k], b) + s[k] * Pow(b, k)
  {
    assert s[..k + 1][..k] == s[..k];
  }

  lemma {:induction false} ValueBound(s: seq<int>, b: nat)
    requires AreDigits(s, b)
    ensures 0 <= Value(s, b) < Pow(b, |s|)
  {
    hide Value, Pow;
    if s == [] {
      ValueOfNone(b);
      PowZero(b);
    } else {
      var n := |s| - 1;
      assert s == s[..n] + [s[n]];
      ValueBound(s[..n], b);
      ValueSnoc(s[..n], s[n], b);
      PowNext(b, n);
      DigitFits(s[n], b, Pow(b, n));
    }
  }

  lemma DigitFits(d: int, b: nat, p: nat)
    requires 0 <= d < b
    ensures 0 <= d * p && d * p + p <= b * p
  {
    MulMono(p, d + 1, b);
    Distribute(p, d, 1);
    MulMono(p, 0, d);
  }

  /** Low digits and high digits, apart. */
  lemma {:induction false} ValueSplit(s: seq<int>, k: nat, b: nat)
    requires k <= |s|
    ensures Value(s, b) == Value(s[..k], b) + Pow(b, k) * Value(s[k..], b)
    decreases |s|
  {
    hide Value, Pow;
    if k == |s| {
      assert s[..k] == s && s[k..] == [];
      ValueOfNone(b);
    } else {
      var n := |s| - 1;
      var high := s[k..n];
      ValueSplit(s[..n], k, b);
      assert s[..n][..k] == s[..k] && s[..n][k..] == high;
      assert s == s[..n] + [s[n]] && s[k..] == high + [s[n]];
      ValueSnoc(s[..n], s[n], b);
      ValueSnoc(high, s[n], b);
      PowAdd(b, k, n - k);
      SplitStep(Value(high, b), s[n], Pow(b, k), Pow(b, n - k));
    }
  }

  lemma ValueOfNone(b: nat)
    ensures Value([], b) == 0
  {
  }

  lemma SplitStep(high: int, d: int, p: int, q: int)
    ensures p * (high + d * q) == p * high + d * (p * q)
  {
    Distribute(p, high, d * q);
    assert d * (p * q) == p * (d * q);
  }

  lemma {:induction false} ValueUpdate(s: seq<int>, j: nat, d: int, b: nat)
    requires j < |s|
    ensures Value(s[j := d], b) == Value(s, b) + (d - s[j]) * Pow(b, j)
    decreases |s|
  {
    var n := |s| - 1;
    if j == n {
      assert s[j := d][..n] == s[..n];
    } else {
      ValueUpdate(s[..n], j, d, b);
      assert s[j := d][..n] == s[..n][j := d];
    }
    Distribute(Pow(b, j), d, s[j]);
  }

  lemma {:induction false} ValueZeros(s: seq<int>, b: nat)
    requires forall i :: 0 <= i < |s| ==> s[i] == 0
    ensures Value(s, b) == 0
  {
    if s != [] {
      ValueZeros(s[..|s| - 1], b);
    }
  }

  /** Every digit at its largest spells one less than the next power. */
  lemma {:induction false} ValueNines(s: seq<int>, b: nat)
    requires forall i :: 0 <= i < |s| ==> s[i] == b - 1
    ensures Value(s, b) == Pow(b, |s|) - 1
  {
    if s != [] {
      var n := |s| - 1;
      ValueNines(s[..n], b);
      Distribute(Pow(b, n), b, 1);
    }
  }

  /** The highest digit that differs decides. */
  lemma ValueCompare(s: seq<int>, t: seq<int>, k: nat, b: nat)
    requires |s| == |t| && k < |s| && AreDigits(s, b) && AreDigits(t, b)
    requires s[k + 1..] == t[k + 1..] && s[k] < t[k]
    ensures Value(s, b) < Value(t, b)
  {
    hide Value, Pow;
    ValueSplit(s, k + 1, b);
    ValueSplit(t, k + 1, b);
    ValueNext(s, k, b);
    ValueNext(t, k, b);
    ValueBound(s[..k], b);
    ValueBound(t[..k], b);
    DigitGap(Pow(b, k), s[k], t[k]);
  }

  lemma DigitGap(p: nat, d: int, e: int)
    requires d < e
    ensures d * p + p <= e * p
  {
    MulMono(p, d + 1, e);
    Distribute(p, d, 1);
  }

  // --- Shifts ---

  ghost function At(s: seq<int>, i: int): int {
    if 0 <= i < |s| then s[i] else 0
  }

  /** What a shifted digit keeps. */
  ghost function Kept(d: int, lift: nat, b: nat): int
    requires b > 0
  {
    (d * lift) % b
  }

  /** What a shifted digit hands to the one above. */
  ghost function Spilt(d: int, lift: nat, b: nat): int
    requires b > 0
  {
    (d * lift) / b
  }

  /** Shifting every digit up by part of a digit, each taking in what the one below lost. */
  ghost predicate ShiftedUp(s: seq<int>, t: seq<int>, lift: nat, b: nat) {
    && |s| == |t| && b > 0
    && (forall i :: 0 <= i < |s| ==> t[i] == Kept(s[i], lift, b) + Spilt(At(s, i - 1), lift, b))
  }

  lemma {:induction false} ShiftUpValue(s: seq<int>, t: seq<int>, k: nat, lift: nat, b: nat)
    requires b > 0 && ShiftedUp(s, t, lift, b) && k <= |s|
    ensures Value(t[..k], b) + Spilt(At(s, k - 1), lift, b) * Pow(b, k) == Value(s[..k], b) * lift
  {
    hide Value, Pow, Kept, Spilt;
    if k == 0 {
      assert s[..k] == [] && t[..k] == [];
      ValueOfNone(b);
      SpiltNone(lift, b);
    } else {
      var j := k - 1;
      PowNext(b, j);
      ShiftUpValue(s, t, j, lift, b);
      ValueNext(s, j, b);
      ValueNext(t, j, b);
      ShiftUpStep(Value(t[..j], b), Value(s[..j], b), s[j], t[j], Spilt(At(s, j - 1), lift, b), lift, Pow(b, j), b);
    }
  }

  lemma SpiltNone(lift: nat, b: nat)
    requires b > 0
    ensures Spilt(0, lift, b) == 0
  {
  }

  lemma ShiftUpStep(vt: int, vs: int, d: int, e: int, carry: int, lift: nat, p: nat, b: nat)
    requires b > 0 && vt + carry * p == vs * lift && e == Kept(d, lift, b) + carry
    ensures vt + e * p + Spilt(d, lift, b) * (b * p) == (vs + d * p) * lift
  {
    var q, r := (d * lift) / b, (d * lift) % b;
    assert d * lift == b * q + r;
    Distribute(p, r, carry);
    Distribute(p, b * q, r);
    assert q * (b * p) == (b * q) * p;
    Distribute(lift, vs, d * p);
    assert d * p * lift == (d * lift) * p;
  }

  /** `t` is `s` moved up `up` whole digits and then by part of one; what leaves the top is lost. */
  ghost predicate MovedUp(s: seq<int>, t: seq<int>, up: nat, lift: nat, b: nat) {
    && |s| == |t| && up < |s| && b > 0
    && (forall i :: 0 <= i < up ==> t[i] == 0)
    && (forall i :: up <= i < |s| ==> t[i] == Kept(s[i - up], lift, b) + Spilt(At(s, i - up - 1), lift, b))
  }

  /** What the move loses: the digits pushed over the top, and what the last one kept spilt. */
  ghost function Lost(s: seq<int>, up: nat, lift: nat, b: nat): int
    requires up < |s| && b > 0
  {
    Spilt(s[|s| - up - 1], lift, b) + Value(s[|s| - up..], b) * lift
  }

  lemma MovedUpValue(s: seq<int>, t: seq<int>, up: nat, lift: nat, b: nat)
    requires MovedUp(s, t, up, lift, b)
    ensures Value(s, b) * (Pow(b, up) * lift) == Pow(b, |s|) * Lost(s, up, lift, b) + Value(t, b)
  {
    hide Value, Pow, Kept, Spilt, ShiftedUp;
    var m := |s| - up;
    var u := MovedDigits(s, t, up, lift, b);
    ShiftUpValue(s, u, m, lift, b);
    ValueZeros(t[..up], b);
    ValueSplit(t, up, b);
    ValueSplit(s, m, b);
    PowAdd(b, up, m);
    MoveStep(Value(s, b), Value(t, b), Value(u[..m], b), Value(s[..m], b), Value(s[m..], b),
             Spilt(s[m - 1], lift, b), lift, Pow(b, up), Pow(b, m));
  }

  lemma MovedDigits(s: seq<int>, t: seq<int>, up: nat, lift: nat, b: nat) returns (u: seq<int>)
    requires MovedUp(s, t, up, lift, b)
    ensures |u| == |s| && ShiftedUp(s, u, lift, b) && t[up..] == u[..|s| - up]
  {
    hide Kept, Spilt;
    u := seq(|s|, i requires 0 <= i < |s| => Kept(s[i], lift, b) + Spilt(At(s, i - 1), lift, b));
    forall i | 0 <= i < |s| - up ensures t[up..][i] == u[i] {
      assert t[up + i] == Kept(s[up + i - up], lift, b) + Spilt(At(s, up + i - up - 1), lift, b);
    }
  }

  lemma MoveStep(vs: int, vt: int, vu: int, low: int, high: int, carry: int, lift: int, pu: int, pm: int)
    requires vs == low + pm * high && vt == 0 + pu * vu && vu + carry * pm == low * lift
    ensures vs * (pu * lift) == (pu * pm) * (carry + high * lift) + vt
  {
    assert vs * (pu * lift) == pu * (low * lift) + pu * (pm * high * lift);
    assert pu * (low * lift) == pu * vu + pu * (carry * pm);
    assert (pu * pm) * (carry + high * lift) == pu * (carry * pm) + pu * (pm * high * lift);
  }

  /** Shifting down by part of a digit: each digit keeps its high part and takes in the low part of the
      one above. `cut * lift` is one digit. */
  ghost predicate ShiftedDown(s: seq<int>, t: seq<int>, cut: nat, lift: nat) {
    && |s| == |t| && cut > 0
    && (forall i :: 0 <= i < |s| ==> t[i] == s[i] / cut + (At(s, i + 1) % cut) * lift)
  }

  lemma {:induction false} ShiftDownValue(s: seq<int>, t: seq<int>, k: nat, cut: nat, lift: nat)
    requires ShiftedDown(s, t, cut, lift) && k <= |s|
    ensures Value(t[..k], cut * lift) * cut + At(s, 0) % cut
         == Value(s[..k], cut * lift) + (At(s, k) % cut) * Pow(cut * lift, k)
  {
    hide Value, Pow;
    if k == 0 {
      assert s[..k] == [] && t[..k] == [];
      ValueOfNone(cut * lift);
      PowZero(cut * lift);
    } else {
      var j := k - 1;
      PowNext(cut * lift, j);
      ShiftDownValue(s, t, j, cut, lift);
      ValueNext(s, j, cut * lift);
      ValueNext(t, j, cut * lift);
      ShiftDownStep(Value(t[..j], cut * lift), Value(s[..j], cut * lift), s[j], t[j], At(s, k) % cut,
                    At(s, 0) % cut, cut, lift, Pow(cut * lift, j));
    }
  }

  lemma ShiftDownStep(vt: int, vs: int, d: int, e: int, above: int, low: int, cut: nat, lift: nat, p: nat)
    requires cut > 0 && vt * cut + low == vs + (d % cut) * p && e == d / cut + above * lift
    ensures (vt + e * p) * cut + low == vs + d * p + above * (cut * lift * p)
  {
    var q, r := d / cut, d % cut;
    assert d == cut * q + r;
    Distribute(cut, vt, e * p);
    assert e * p * cut == (e * cut) * p;
    Distribute(cut, q, above * lift);
    assert e * cut == cut * q + cut * (above * lift);
    Distribute(p, cut * q, cut * (above * lift));
    Distribute(p, cut * q, r);
    assert cut * (above * lift) * p == above * (cut * lift * p);
  }

  // --- Bytes, most significant first ---

  ghost function Reversed(s: seq<int>): seq<int> {
    seq(|s|, i requires 0 <= i < |s| => s[|s| - 1 - i])
  }

  /** The number the last `k` bytes spell. */
  ghost function Low(s: seq<int>, k: nat): int
    requires k <= |s|
  {
    Value(Reversed(s)[..k], 256)
  }

  /** The number bytes spell, most significant first. */
  ghost function BigEndian(s: seq<int>): int {
    Low(s, |s|)
  }

  ghost predicate AreBytes(s: seq<int>) {
    forall i :: 0 <= i < |s| ==> 0 <= s[i] < 256
  }

  lemma LowNone(s: seq<int>)
    ensures Low(s, 0) == 0
  {
  }

  lemma LowNext(s: seq<int>, k: nat)
    requires k < |s|
    ensures Low(s, k + 1) == Low(s, k) + s[|s| - 1 - k] * Pow(256, k)
  {
    hide Value, Pow;
    ValueNext(Reversed(s), k, 256);
  }

  lemma LowSame(s: seq<int>, t: seq<int>, k: nat)
    requires |s| == |t| && k <= |s| && s[|s| - k..] == t[|t| - k..]
    ensures Low(s, k) == Low(t, k)
  {
    hide Value;
    assert Reversed(s)[..k] == Reversed(t)[..k] by {
      forall i | 0 <= i < k ensures Reversed(s)[i] == Reversed(t)[i] {
        assert s[|s| - k..][k - 1 - i] == t[|t| - k..][k - 1 - i];
      }
    }
  }

  lemma LowBound(s: seq<int>, k: nat)
    requires AreBytes(s) && k <= |s|
    ensures 0 <= Low(s, k) < Pow(256, k)
  {
    hide Value, Pow;
    ValueBound(Reversed(s)[..k], 256);
  }

  /** Where the leading bytes agree, only the last ones make a difference. */
  lemma LowDiffers(s: seq<int>, t: seq<int>, k: nat)
    requires |s| == |t| && k <= |s| && s[..|s| - k] == t[..|t| - k]
    ensures BigEndian(s) - BigEndian(t) == Low(s, k) - Low(t, k)
  {
    hide Value, Pow;
    var x, y := Reversed(s), Reversed(t);
    assert x[..|x|] == x && y[..|y|] == y;
    ValueSplit(x, k, 256);
    ValueSplit(y, k, 256);
    assert x[k..] == y[k..] by {
      forall i | k <= i < |x| ensures x[i] == y[i] {
        assert s[..|s| - k][|s| - 1 - i] == t[..|t| - k][|s| - 1 - i];
      }
    }
  }

  lemma BigEndianZero(s: seq<int>)
    requires forall i :: 0 <= i < |s| ==> s[i] == 0
    ensures BigEndian(s) == 0
  {
    hide Value;
    ValueZeros(Reversed(s)[..|s|], 256);
  }

  lemma BigEndianFull(s: seq<int>)
    requires forall i :: 0 <= i < |s| ==> s[i] == 255
    ensures BigEndian(s) == Pow(256, |s|) - 1
  {
    hide Value, Pow;
    ValueNines(Reversed(s)[..|s|], 256);
  }

  /** The first byte that differs decides. */
  lemma BigEndianCompare(s: seq<int>, t: seq<int>, k: nat)
    requires AreBytes(s) && AreBytes(t) && |s| == |t| && k < |s| && s[..k] == t[..k] && s[k] < t[k]
    ensures BigEndian(s) < BigEndian(t)
  {
    hide Value;
    var x, y, j := Reversed(s), Reversed(t), |s| - 1 - k;
    assert x[j + 1..] == y[j + 1..] by {
      forall i | j + 1 <= i < |x| ensures x[i] == y[i] {
        assert s[..k][|s| - 1 - i] == t[..k][|s| - 1 - i];
      }
    }
    assert x[..|x|] == x && y[..|y|] == y;
    ValueCompare(x, y, j, 256);
  }

  lemma BigEndianUpdate(s: seq<int>, k: nat, d: int)
    requires k < |s|
    ensures BigEndian(s[k := d]) == BigEndian(s) + (d - s[k]) * Pow(256, |s| - 1 - k)
  {
    hide Value, Pow;
    var x, j := Reversed(s), |s| - 1 - k;
    assert Reversed(s[k := d]) == x[j := d];
    assert x[..|x|] == x && x[j := d][..|x|] == x[j := d];
    ValueUpdate(x, j, d, 256);
  }
}
