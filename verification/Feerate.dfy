/** Comparing two fee rates exactly, in 64-bit arithmetic. */
module Feerate {
  import opened Arith
  import opened Primitives

  const TWO32: nat := 0x1_0000_0000
  const TWO64: nat := 0x1_0000_0000_0000_0000

  type u64 = x: int | 0 <= x < 0x1_0000_0000_0000_0000

  /** What a 64-bit register keeps of a result. */
  function Wrap64(x: int): nat {
    x % TWO64
  }

  datatype Product = Product(hi: nat, lo: nat) {
    ghost function Value(): nat {
      hi * TWO64 + lo
    }
  }

  lemma SmallProduct(a: nat, b: nat)
    requires a < TWO32 && b < TWO32
    ensures 0 <= a * b <= (TWO32 - 1) * (TWO32 - 1) && Wrap64(a * b) == a * b
  {
    MulMono(a, b, TWO32 - 1);
    MulMono(TWO32 - 1, a, TWO32 - 1);
    assert a * (TWO32 - 1) == (TWO32 - 1) * a;
  }

  lemma SplitProduct(aHi: nat, aLo: nat, bHi: nat, bLo: nat)
    ensures (aHi * TWO32 + aLo) * (bHi * TWO32 + bLo)
         == (aHi * bHi) * TWO64 + (aLo * bHi + aHi * bLo) * TWO32 + aLo * bLo
  {
    Distribute(aHi * TWO32 + aLo, bHi * TWO32, bLo);
    Distribute(bHi * TWO32, aHi * TWO32, aLo);
    Distribute(bLo, aHi * TWO32, aLo);
    assert aHi * TWO32 * (bHi * TWO32) == (aHi * bHi) * TWO64;
    assert aLo * (bHi * TWO32) == (aLo * bHi) * TWO32;
    assert aHi * TWO32 * bLo == (aHi * bLo) * TWO32;
  }

  /** The 128-bit product, assembled from 32-bit halves. */
  function Mul64(a: u64, b: u64): Product {
    var aLo, aHi, bLo, bHi := a % TWO32, a / TWO32, b % TWO32, b / TWO32;
    var ll, lh, hl, hh := Wrap64(aLo * bLo), Wrap64(aLo * bHi), Wrap64(aHi * bLo), Wrap64(aHi * bHi);
    var mid := Wrap64(ll / TWO32 + lh % TWO32 + hl % TWO32);
    // The two halves of the low word share no bit, so their union is their sum.
    Product(Wrap64(hh + lh / TWO32 + hl / TWO32 + mid / TWO32), ll % TWO32 + Wrap64(mid * TWO32))
  }

  /** The product is exact: nothing wraps on the way, and both words fit. */
  lemma Mul64Exact(a: u64, b: u64)
    ensures var r := Mul64(a, b); r.hi < TWO64 && r.lo < TWO64 && r.Value() == a * b
  {
    var aLo, aHi, bLo, bHi := a % TWO32, a / TWO32, b % TWO32, b / TWO32;
    SmallProduct(aLo, bLo);
    SmallProduct(aLo, bHi);
    SmallProduct(aHi, bLo);
    SmallProduct(aHi, bHi);
    SplitProduct(aHi, aLo, bHi, bLo);
    Assembled(aLo * bLo, aLo * bHi, aHi * bLo, aHi * bHi);
  }

  lemma Assembled(ll: nat, lh: nat, hl: nat, hh: nat)
    requires ll <= (TWO32 - 1) * (TWO32 - 1) && lh <= (TWO32 - 1) * (TWO32 - 1)
    requires hl <= (TWO32 - 1) * (TWO32 - 1) && hh <= (TWO32 - 1) * (TWO32 - 1)
    ensures var mid := Wrap64(ll / TWO32 + lh % TWO32 + hl % TWO32);
            var hi, lo := Wrap64(hh + lh / TWO32 + hl / TWO32 + mid / TWO32), ll % TWO32 + Wrap64(mid * TWO32);
            lo < TWO64 && hi * TWO64 + lo == hh * TWO64 + (lh + hl) * TWO32 + ll
  {
    var h0, l0 := ll / TWO32, ll % TWO32;
    var h1, l1 := lh / TWO32, lh % TWO32;
    var h2, l2 := hl / TWO32, hl % TWO32;
    var m := h0 + l1 + l2;
    var hm, lm := m / TWO32, m % TWO32;
    Halves(ll);
    Halves(lh);
    Halves(hl);
    Recombine(h0, l0, h1, l1, h2, l2, hh, hm, lm);
    CarryFits(m, hm, lm, l0);
  }

  lemma Halves(x: nat)
    requires x <= (TWO32 - 1) * (TWO32 - 1)
    ensures x == (x / TWO32) * TWO32 + x % TWO32 && x / TWO32 <= TWO32 - 2
  {
  }

  lemma CarryFits(m: nat, hm: nat, lm: nat, l0: nat)
    requires m < 3 * TWO32 && hm == m / TWO32 && lm == m % TWO32 && l0 < TWO32
    ensures hm <= 2 && m == hm * TWO32 + lm && Wrap64(m) == m
    ensures Wrap64(m * TWO32) == lm * TWO32 && l0 + lm * TWO32 < TWO64
  {
    DivModUnique(m * TWO32, TWO64, hm, lm * TWO32);
  }

  lemma Recombine(h0: nat, l0: nat, h1: nat, l1: nat, h2: nat, l2: nat, hh: nat, hm: nat, lm: nat)
    requires h0 + l1 + l2 == hm * TWO32 + lm
    ensures (hh + h1 + h2 + hm) * TWO64 + (l0 + lm * TWO32)
         == hh * TWO64 + ((h1 * TWO32 + l1) + (h2 * TWO32 + l2)) * TWO32 + (h0 * TWO32 + l0)
  {
  }

  function CompareProducts(a: Product, b: Product): int {
    if a.hi != b.hi then (if a.hi < b.hi then -1 else 1)
    else if a.lo != b.lo then (if a.lo < b.lo then -1 else 1)
    else 0
  }

  function CompareFeerate(feeA: int, weightA: u64, feeB: int, weightB: u64): (r: int)
    requires FitsInt64(feeA) && FitsInt64(feeB)
  {
    if weightA == 0 || weightB == 0 then
      if weightA == weightB then 0 else if weightA == 0 then -1 else 1
    else
      CompareProducts(Mul64(if feeA > 0 then feeA else 0, weightB), Mul64(if feeB > 0 then feeB else 0, weightA))
  }

  function Sign(x: int): int {
    if x < 0 then -1 else if x > 0 then 1 else 0
  }

  /** The comparison of `feeA/weightA` with `feeB/weightB` as rationals, a non-positive fee counting as
      nothing and a weightless package as cheaper than any other. */
  function CompareRates(feeA: int, weightA: nat, feeB: int, weightB: nat): int {
    if weightA == 0 || weightB == 0 then
      if weightA == weightB then 0 else if weightA == 0 then -1 else 1
    else
      Sign((if feeA > 0 then feeA else 0) * weightB - (if feeB > 0 then feeB else 0) * weightA)
  }

  /** The 64-bit comparison is exact on every fee and weight a register can hold. */
  lemma CompareFeerateExact(feeA: int, weightA: u64, feeB: int, weightB: u64)
    requires FitsInt64(feeA) && FitsInt64(feeB)
    ensures CompareFeerate(feeA, weightA, feeB, weightB) == CompareRates(feeA, weightA, feeB, weightB)
  {
    if weightA != 0 && weightB != 0 {
      var x, y := Mul64(if feeA > 0 then feeA else 0, weightB), Mul64(if feeB > 0 then feeB else 0, weightA);
      Mul64Exact(if feeA > 0 then feeA else 0, weightB);
      Mul64Exact(if feeB > 0 then feeB else 0, weightA);
      ProductOrder(x, y);
    }
  }

  lemma ProductOrder(x: Product, y: Product)
    requires x.hi < TWO64 && x.lo < TWO64 && y.hi < TWO64 && y.lo < TWO64
    ensures CompareProducts(x, y) == Sign(x.Value() - y.Value())
  {
  }

  // --- The order on rates is a total preorder ---

  lemma RatesAntisymmetric(feeA: int, weightA: nat, feeB: int, weightB: nat)
    ensures CompareRates(feeB, weightB, feeA, weightA) == -CompareRates(feeA, weightA, feeB, weightB)
  {
  }

  lemma RatesTransitive(feeA: int, weightA: nat, feeB: int, weightB: nat, feeC: int, weightC: nat)
    requires CompareRates(feeA, weightA, feeB, weightB) <= 0 && CompareRates(feeB, weightB, feeC, weightC) <= 0
    ensures CompareRates(feeA, weightA, feeC, weightC) <= 0
    ensures CompareRates(feeA, weightA, feeB, weightB) < 0 || CompareRates(feeB, weightB, feeC, weightC) < 0
            ==> CompareRates(feeA, weightA, feeC, weightC) < 0
  {
    if weightA != 0 && weightB != 0 && weightC != 0 {
      var a, b, c := (if feeA > 0 then feeA else 0), (if feeB > 0 then feeB else 0), (if feeC > 0 then feeC else 0);
      CrossTransitive(a, weightA, b, weightB, c, weightC);
    }
  }

  lemma CrossTransitive(a: nat, wa: nat, b: nat, wb: nat, c: nat, wc: nat)
    requires wa > 0 && wb > 0 && wc > 0
    requires a * wb <= b * wa && b * wc <= c * wb
    ensures a * wc <= c * wa
    ensures a * wb < b * wa || b * wc < c * wb ==> a * wc < c * wa
  {
    // Multiply the first by wc and the second by wa, then cancel wb.
    MulMono(wc, a * wb, b * wa);
    MulMono(wa, b * wc, c * wb);
    assert wc * (a * wb) == (a * wc) * wb;
    assert wc * (b * wa) == wa * (b * wc);
    assert wa * (c * wb) == (c * wa) * wb;
    if a * wb < b * wa {
      MulMono(wc, a * wb + 1, b * wa);
      Distribute(wc, a * wb, 1);
    }
    if b * wc < c * wb {
      MulMono(wa, b * wc + 1, c * wb);
      Distribute(wa, b * wc, 1);
    }
    Cancel(a * wc, c * wa, wb);
  }

  lemma Cancel(x: nat, y: nat, w: nat)
    requires w > 0
    ensures x * w <= y * w ==> x <= y
    ensures x * w < y * w ==> x < y
  {
    if x > y {
      MulMono(w, y + 1, x);
      Distribute(w, y, 1);
    }
  }
}
