/** `Client.suggestedGasPrice`: a suggested price scaled by a float64 margin. */
module GasPrice {
  import opened Basics

  function Pow2(k: nat): (p: nat)
    ensures p > 0
  {
    if k == 0 then 1 else 2 * Pow2(k - 1)
  }

  /** A finite, non-negative float64: `mant * 2^exp`. */
  datatype Factor = Factor(mant: nat, exp: int)

  /** Low bits to drop so that at most 53 significant bits remain, the precision of `big.NewFloat`. */
  function Excess(n: nat): nat {
    if n < 0x20_0000_0000_0000 then 0 else 1 + Excess(n / 2)
  }

  /** Quotient by `d`, to nearest, ties to even. */
  function DivEven(n: nat, d: nat): nat
    requires d > 0
  {
    var q, r := n / d, n % d;
    if 2 * r > d || (2 * r == d && q % 2 == 1) then q + 1 else q
  }

  /** The weight of the last significant bit kept of `n`. */
  function Unit(n: nat): (u: nat)
    ensures u > 0
  {
    Pow2(Excess(n))
  }

  /** `n` rounded to 53 significant bits, to nearest, ties to even. There is no exponent limit, so
      scaling by a power of two commutes with rounding and integers are enough. */
  function Round(n: nat): nat {
    DivEven(n, Unit(n)) * Unit(n)
  }

  function Quotient(n: nat, d: nat): nat
    requires d > 0
  {
    n / d
  }

  /** The integer part of `n * 2^exp`. */
  function Shift(n: nat, exp: int): nat {
    if exp >= 0 then n * Pow2(exp) else Quotient(n, Pow2(-exp))
  }

  /** `SetInt` rounds the price, `Mul` rounds the product, `Int` truncates. */
  function Scaled(f: Factor, price: nat): nat {
    Shift(Round(Round(price) * f.mant), f.exp)
  }

  function Adjusted(f: Factor, limit: uint64, price: nat): nat {
    var p := Scaled(f, price);
    if limit > 0 && p > limit then limit else p
  }

  // ----- Arithmetic

  lemma MulMonotone(a: nat, b: nat, c: nat)
    requires a <= b
    ensures a * c <= b * c
  {
  }

  lemma MulAssociative(a: nat, b: nat, c: nat)
    ensures a * (b * c) == (a * b) * c
  {
  }

  lemma QuotientBounds(n: nat, d: nat)
    requires d > 0
    ensures Quotient(n, d) * d <= n < (Quotient(n, d) + 1) * d
  {
  }

  /** `q` is the quotient as soon as `n` lies in its interval. */
  lemma QuotientUnique(n: nat, d: nat, q: nat)
    requires d > 0 && q * d <= n < (q + 1) * d
    ensures Quotient(n, d) == q
  {
    QuotientBounds(n, d);
    var p := Quotient(n, d);
    if p < q {
      MulMonotone(p + 1, q, d);
    } else if q < p {
      MulMonotone(q + 1, p, d);
    }
  }

  lemma QuotientMonotone(m: nat, n: nat, d: nat)
    requires d > 0 && m <= n
    ensures Quotient(m, d) <= Quotient(n, d)
  {
    QuotientBounds(m, d);
    QuotientBounds(n, d);
    if Quotient(n, d) < Quotient(m, d) {
      MulMonotone(Quotient(n, d) + 1, Quotient(m, d), d);
    }
  }

  lemma {:induction false} Pow2Add(j: nat, k: nat)
    ensures Pow2(j + k) == Pow2(j) * Pow2(k)
  {
    if j > 0 {
      Pow2Add(j - 1, k);
      MulAssociative(2, Pow2(j - 1), Pow2(k));
    }
  }

  lemma {:induction false} Pow2Monotone(j: nat, k: nat)
    requires j <= k
    ensures Pow2(j) <= Pow2(k)
  {
    if j < k {
      Pow2Monotone(j, k - 1);
    }
  }

  // ----- Rounding

  /** After dropping the excess bits 53 are left, and no fewer unless none was dropped. */
  lemma {:induction false} ExcessBounds(n: nat)
    ensures n < 0x20_0000_0000_0000 * Unit(n)
    ensures Excess(n) > 0 ==> 0x10_0000_0000_0000 * Unit(n) <= n
  {
    if n >= 0x20_0000_0000_0000 {
      ExcessBounds(n / 2);
      assert Unit(n) == 2 * Unit(n / 2);
    }
  }

  lemma {:induction false} ExcessMonotone(m: nat, n: nat)
    requires m <= n
    ensures Excess(m) <= Excess(n)
  {
    if m >= 0x20_0000_0000_0000 {
      ExcessMonotone(m / 2, n / 2);
    }
  }

  lemma DivEvenNear(n: nat, d: nat)
    requires d > 0
    ensures
      var v := DivEven(n, d);
      && Quotient(n, d) <= v <= Quotient(n, d) + 1
      && 0 - d <= 2 * (v * d - n) <= d
      && (2 * (v * d - n) == d || 2 * (v * d - n) == 0 - d ==> v % 2 == 0)
  {
    var q, r := n / d, n % d;
    assert n == q * d + r;
    assert (q + 1) * d == q * d + d;
  }

  lemma DivEvenExact(q: nat, d: nat)
    requires d > 0
    ensures DivEven(q * d, d) == q
  {
    QuotientUnique(q * d, d, q);
    assert (q * d) % d == q * d - q * d;
  }

  lemma DivEvenMonotone(m: nat, n: nat, d: nat)
    requires d > 0 && m <= n
    ensures DivEven(m, d) <= DivEven(n, d)
  {
    hide DivEven, Quotient;
    DivEvenNear(m, d);
    DivEvenNear(n, d);
    if DivEven(m, d) > DivEven(n, d) {
      MulMonotone(DivEven(n, d) + 1, DivEven(m, d), d);
    }
  }

  lemma RoundBounds(n: nat)
    ensures Round(n) <= 0x20_0000_0000_0000 * Unit(n)
    ensures Excess(n) > 0 ==> 0x10_0000_0000_0000 * Unit(n) <= Round(n)
  {
    var u, v := Unit(n), DivEven(n, Unit(n));
    ExcessBounds(n);
    DivEvenNear(n, u);
    QuotientBounds(n, u);
    var q := Quotient(n, u);
    if q >= 0x20_0000_0000_0000 {
      MulMonotone(0x20_0000_0000_0000, q, u);
    }
    MulMonotone(v, 0x20_0000_0000_0000, u);
    if Excess(n) > 0 {
      if q < 0x10_0000_0000_0000 {
        MulMonotone(q + 1, 0x10_0000_0000_0000, u);
      }
      MulMonotone(0x10_0000_0000_0000, v, u);
    }
  }

  lemma RoundMonotone(m: nat, n: nat)
    requires m <= n
    ensures Round(m) <= Round(n)
  {
    ExcessMonotone(m, n);
    if Excess(m) == Excess(n) {
      DivEvenMonotone(m, n, Unit(n));
      MulMonotone(DivEven(m, Unit(n)), DivEven(n, Unit(n)), Unit(n));
    } else {
      RoundBounds(m);
      RoundBounds(n);
      Pow2Monotone(Excess(m) + 1, Excess(n));
    }
  }

  /** With enough trailing zeros a number is a multiple of the unit. */
  lemma UnitDivides(n: nat, q: nat, k: nat)
    requires Excess(n) <= k
    ensures q * Pow2(k) == (q * Pow2(k - Excess(n))) * Unit(n)
  {
    Pow2Add(k - Excess(n), Excess(n));
    MulAssociative(q, Pow2(k - Excess(n)), Unit(n));
  }

  /** Numbers of at most 53 significant bits are not changed. */
  lemma RoundExact(q: nat, k: nat)
    requires q <= 0x20_0000_0000_0000
    ensures Round(q * Pow2(k)) == q * Pow2(k)
  {
    hide DivEven, Unit, Pow2, Excess;
    var n := q * Pow2(k);
    if Excess(n) <= k {
      UnitDivides(n, q, k);
      DivEvenExact(q * Pow2(k - Excess(n)), Unit(n));
    } else {
      RoundExactCarry(q, k);
    }
  }

  /** Only 2^53 itself drops one bit more than it has trailing zeros to spare. */
  lemma RoundExactCarry(q: nat, k: nat)
    requires q <= 0x20_0000_0000_0000 && Excess(q * Pow2(k)) > k
    ensures Round(q * Pow2(k)) == q * Pow2(k)
  {
    var n := q * Pow2(k);
    var e, u := Excess(n), Unit(n);
    ExcessBounds(n);
    MulMonotone(q, 0x20_0000_0000_0000, Pow2(k));
    assert Pow2(k + 1) == 2 * Pow2(k);
    Pow2Monotone(k + 1, e);
    assert n == 0x10_0000_0000_0000 * u;
    DivEvenExact(0x10_0000_0000_0000, u);
  }

  /** A number of at most 53 significant bits. */
  ghost predicate FiftyThreeBits(x: nat) {
    exists q: nat, k: nat :: HasSignificand(x, q, k)
  }

  predicate HasSignificand(x: nat, q: nat, k: nat) {
    q < 0x20_0000_0000_0000 && x == q * Pow2(k)
  }

  lemma RoundFits(n: nat)
    ensures FiftyThreeBits(Round(n))
  {
    var v, e := DivEven(n, Unit(n)), Excess(n);
    RoundBounds(n);
    if v >= 0x20_0000_0000_0000 {
      if v > 0x20_0000_0000_0000 {
        MulMonotone(0x20_0000_0000_0001, v, Unit(n));
      }
      Pow2Add(1, e);
      assert Pow2(1) == 2;
      assert HasSignificand(Round(n), 0x10_0000_0000_0000, 1 + e);
    } else {
      assert HasSignificand(Round(n), v, e);
    }
  }

  function Distance(x: nat, y: nat): nat {
    if x <= y then y - x else x - y
  }

  /** Rounding gives a number of 53 significant bits to which no other one is nearer, and of two equally near ones
      the one whose last significant bit is zero. */
  lemma RoundNearest(n: nat, q: nat, k: nat)
    requires q < 0x20_0000_0000_0000
    ensures FiftyThreeBits(Round(n)) && Distance(Round(n), n) <= Distance(q * Pow2(k), n)
    ensures q * Pow2(k) != Round(n) && Distance(Round(n), n) == Distance(q * Pow2(k), n) ==>
              exists v: nat | v % 2 == 0 :: Round(n) == v * Unit(n)
  {
    hide DivEven, FiftyThreeBits, Unit, Pow2, Quotient;
    var y, u := q * Pow2(k), Unit(n);
    RoundFits(n);
    var v := DivEven(n, u);
    DivEvenNear(n, u);
    QuotientBounds(n, u);
    NoneBetween(n, q, k);
    assert Round(n) == v * u;
    var f := Quotient(n, u);
    assert (f + 1) * u == f * u + u;
  }

  /** No number of 53 significant bits lies strictly between the multiples of the unit around `n`. */
  lemma NoneBetween(n: nat, q: nat, k: nat)
    requires q < 0x20_0000_0000_0000
    ensures
      var y, u := q * Pow2(k), Unit(n);
      y <= Quotient(n, u) * u || (Quotient(n, u) + 1) * u <= y
  {
    hide Unit, Pow2, Excess, Quotient;
    var f, u := Quotient(n, Unit(n)), Unit(n);
    if k >= Excess(n) {
      UnitDivides(n, q, k);
      var c := q * Pow2(k - Excess(n));
      if c <= f {
        MulMonotone(c, f, u);
      } else {
        MulMonotone(f + 1, c, u);
      }
    } else {
      SmallBelow(n, q, k);
    }
  }

  lemma SmallBelow(n: nat, q: nat, k: nat)
    requires q < 0x20_0000_0000_0000 && k < Excess(n)
    ensures q * Pow2(k) <= Quotient(n, Unit(n)) * Unit(n)
  {
    var f, u := Quotient(n, Unit(n)), Unit(n);
    ExcessBounds(n);
    QuotientBounds(n, u);
    if f < 0x10_0000_0000_0000 {
      MulMonotone(f + 1, 0x10_0000_0000_0000, u);
    }
    MulMonotone(0x10_0000_0000_0000, f, u);
    assert Pow2(k + 1) == 2 * Pow2(k);
    Pow2Monotone(k + 1, Excess(n));
    MulMonotone(q, 0x20_0000_0000_0000, Pow2(k));
  }

  // ----- The adjusted price

  lemma ShiftMonotone(m: nat, n: nat, exp: int)
    requires m <= n
    ensures Shift(m, exp) <= Shift(n, exp)
  {
    hide Pow2, Quotient;
    if exp >= 0 {
      MulMonotone(m, n, Pow2(exp));
    } else {
      QuotientMonotone(m, n, Pow2(-exp));
    }
  }

  /** A higher suggestion never gives a lower price. */
  lemma AdjustedMonotone(f: Factor, limit: uint64, p: nat, p': nat)
    requires p <= p'
    ensures Adjusted(f, limit, p) <= Adjusted(f, limit, p')
  {
    hide Round, Shift;
    RoundMonotone(p, p');
    MulMonotone(Round(p), Round(p'), f.mant);
    RoundMonotone(Round(p) * f.mant, Round(p') * f.mant);
    ShiftMonotone(Round(Round(p) * f.mant), Round(Round(p') * f.mant), f.exp);
  }

  /** The adjusted price is the largest integer not above the price that was rounded, scaled and rounded again; a
      limit replaces it exactly if it is exceeded. */
  lemma AdjustedExact(f: Factor, limit: uint64, p: nat)
    ensures
      var product, free := Round(Round(p) * f.mant), Adjusted(f, 0, p);
      && (if f.exp < 0 then free * Pow2(-f.exp) <= product < (free + 1) * Pow2(-f.exp)
          else free == product * Pow2(f.exp))
      && Adjusted(f, limit, p) == if limit == 0 || free <= limit then free else limit
  {
    hide Round, Pow2;
    if f.exp < 0 {
      QuotientBounds(Round(Round(p) * f.mant), Pow2(-f.exp));
    }
  }

  lemma AdjustedWithinLimit(f: Factor, limit: uint64, p: nat)
    requires limit > 0
    ensures Adjusted(f, limit, p) <= limit
  {
  }

  /** The factor is at least one. */
  predicate AtLeastOne(f: Factor) {
    if f.exp >= 0 then f.mant >= 1 else f.mant >= Pow2(-f.exp)
  }

  /** The factor is one. */
  predicate IsOne(f: Factor) {
    f.exp <= 0 && f.mant == Pow2(-f.exp)
  }

  /** Scaling a 53-bit price down to its own size by a factor of exactly one. */
  lemma ShiftBack(p: nat, k: nat)
    requires p <= 0x20_0000_0000_0000
    ensures Shift(Round(p * Pow2(k)), 0 - k) == p
  {
    hide Round, Pow2;
    RoundExact(p, k);
    if k == 0 {
      assert Pow2(0) == 1 by { PowZero(); }
    } else {
      assert p * Pow2(k) <= p * Pow2(k) < (p + 1) * Pow2(k);
      QuotientUnique(p * Pow2(k), Pow2(k), p);
    }
  }

  lemma PowZero()
    ensures Pow2(0) == 1
  {
  }

  lemma RoundSmall(p: nat)
    requires p <= 0x20_0000_0000_0000
    ensures Round(p) == p
  {
    RoundExact(p, 0);
  }

  /** With a factor of at least one and no limit, a price of at most 2^53 is not lowered. */
  lemma AdjustedAtLeast(f: Factor, p: nat)
    requires AtLeastOne(f) && p <= 0x20_0000_0000_0000
    ensures Adjusted(f, 0, p) >= p
  {
    hide Round, Shift, Pow2;
    RoundSmall(p);
    if f.exp < 0 {
      var d := Pow2(-f.exp);
      MulMonotone(d, f.mant, p);
      assert p * d <= p * f.mant;
      RoundMonotone(p * d, p * f.mant);
      ShiftMonotone(Round(p * d), Round(p * f.mant), f.exp);
      ShiftBack(p, -f.exp);
    } else {
      MulMonotone(1, f.mant, p);
      RoundMonotone(p, p * f.mant);
      ShiftUp(Round(p * f.mant), f.exp);
    }
  }

  lemma ShiftUp(n: nat, exp: nat)
    ensures Shift(n, exp) >= n
  {
    MulMonotone(1, Pow2(exp), n);
  }

  /** With a factor of one the adjusted price is the rounded one, so it is the suggested price exactly for
      prices of at most 53 significant bits. */
  lemma AdjustedByOne(f: Factor, p: nat)
    requires IsOne(f)
    ensures Adjusted(f, 0, p) == Round(p)
    ensures Adjusted(f, 0, p) == p <==> p % Unit(p) == 0
  {
    OneShift(f, p);
    RoundFixedIff(p);
  }

  lemma OneShift(f: Factor, p: nat)
    requires IsOne(f)
    ensures Scaled(f, p) == Round(p)
  {
    hide Round, Pow2, Quotient;
    var r, k := Round(p), -f.exp;
    RoundScaled(p, k);
    if k == 0 {
      PowZero();
    } else {
      QuotientUnique(r * Pow2(k), Pow2(k), r);
    }
  }

  /** A rounded number stays what it is under scaling by a power of two. */
  lemma RoundScaled(p: nat, k: nat)
    ensures Round(Round(p) * Pow2(k)) == Round(p) * Pow2(k)
  {
    hide Pow2, DivEven, Excess;
    var v, u := DivEven(p, Unit(p)), Unit(p);
    RoundBounds(p);
    if v > 0x20_0000_0000_0000 {
      MulMonotone(0x20_0000_0000_0000 + 1, v, u);
    }
    Pow2Add(Excess(p), k);
    MulAssociative(v, u, Pow2(k));
    RoundExact(v, Excess(p) + k);
  }

  lemma RoundFixedIff(p: nat)
    ensures Round(p) == p <==> p % Unit(p) == 0
  {
  }

  /** A margin of one lowers the first price that needs 54 bits. */
  lemma AdjustedByOneLoses()
    ensures IsOne(Factor(1, 0))
    ensures Adjusted(Factor(1, 0), 0, 0x20_0000_0000_0001) == 0x20_0000_0000_0000
  {
    AdjustedByOne(Factor(1, 0), 0x20_0000_0000_0001);
    assert Excess(0x20_0000_0000_0001) == 1 + Excess(0x10_0000_0000_0000);
    assert Unit(0x20_0000_0000_0001) == 2;
  }

  /** Both roundings show: 2^53 + 1 scaled by 3/2 is 3 * 2^52, although rounding the exact product once would
      give 3 * 2^52 + 2. */
  lemma RoundedTwice()
    ensures Adjusted(Factor(3, -1), 0, 0x20_0000_0000_0001) == 0x30_0000_0000_0000
    ensures Shift(Round(0x20_0000_0000_0001 * 3), -1) == 0x30_0000_0000_0002
  {
    assert Round(0x20_0000_0000_0001) == 0x20_0000_0000_0000 by {
      AdjustedByOneLoses();
      OneShift(Factor(1, 0), 0x20_0000_0000_0001);
    }
    assert Pow2(2) == 4 && Pow2(1) == 2;
    RoundExact(0x18_0000_0000_0000, 2);
    assert Round(0x60_0000_0000_0000) == 0x60_0000_0000_0000;
    var n := 0x60_0000_0000_0003;
    assert Excess(n) == 1 + Excess(n / 2) && Excess(n / 2) == 1 + Excess(n / 4);
    assert Unit(n) == 4;
    assert Round(n) == 0x60_0000_0000_0004;
  }
}
