/** The digit-by-digit references for the FPU's divider and square root
    (tb/stage5/ref): exact floors, exact sticky bits, and why rounding to nearest
    never meets a tie. */
module DigitRecurrence {
  import opened Division

  const TWO_26: nat := 0x400_0000
  const TWO_52: nat := 0x10_0000_0000_0000
  const TWO_53: nat := 0x20_0000_0000_0000
  const TWO_54: nat := 0x40_0000_0000_0000

  // ---- srt_divide -----------------------------------------------------------------

  /** Fractional bits produced; the integer bit always is. */
  function Fraction(n: int): nat { if n >= 1 then n - 1 else 0 }

  method SrtDivide(a: nat, b: nat, n: int := 56) returns (quotient: nat, sticky: bool)
    requires 0 < a < TWO_53 && 0 < b < TWO_53 && a < 2 * b
    ensures quotient == a * Pow2(Fraction(n)) / b
    ensures sticky <==> a * Pow2(Fraction(n)) % b != 0
    ensures quotient < 2 * Pow2(Fraction(n))
  {
    hide Pow2, IsQuotient;
    var p: int, q: int := a, 0;
    if p >= b {
      q, p := 1, p - b;
    }
    ghost var x := a;
    FirstQuotientBit(a, b);
    for i := 0 to Fraction(n)
      invariant 0 <= p && 0 <= q && IsQuotient(x, b, q, p) && x == a * Pow2(i)
    {
      NextQuotientBit(x, b, q, p);
      p := p * 2;
      if p >= b {
        q, p := q * 2 + 1, p - b;
      } else {
        q := q * 2;
      }
      x := x * 2;
      DoublePower(a, i);
    }
    QuotientIs(x, b, q, p);
    QuotientRange(a, b, Pow2(Fraction(n)), q, p);
    return q, p != 0;
  }

  predicate IsQuotient(x: nat, b: nat, q: nat, p: nat) { x == q * b + p && p < b }

  /** One more digit of the quotient. */
  lemma NextQuotientBit(x: nat, b: nat, q: nat, p: nat)
    requires IsQuotient(x, b, q, p)
    ensures if p * 2 >= b then IsQuotient(x * 2, b, q * 2 + 1, p * 2 - b) else IsQuotient(x * 2, b, q * 2, p * 2)
  {
    assert q * 2 * b == q * b * 2;
    assert (q * 2 + 1) * b == q * 2 * b + b;
  }

  lemma FirstQuotientBit(a: nat, b: nat)
    requires a < 2 * b
    ensures if a >= b then IsQuotient(a, b, 1, a - b) else IsQuotient(a, b, 0, a)
    ensures a == a * Pow2(0)
  {}

  lemma DoublePower(a: nat, i: nat)
    ensures a * Pow2(i) * 2 == a * Pow2(i + 1)
  {}

  lemma QuotientIs(x: nat, b: nat, q: nat, p: nat)
    requires IsQuotient(x, b, q, p)
    ensures q == x / b && p == x % b
  {
    DivModUnique(x, b, q, p);
  }

  lemma QuotientRange(a: nat, b: nat, m: nat, q: nat, p: nat)
    requires m > 0 && a < 2 * b && IsQuotient(a * m, b, q, p)
    ensures q < 2 * m
  {
    Gap(a, 2 * b, m);
    assert 2 * b * m == 2 * m * b;
    LessFactor(q, 2 * m, b);
  }

  // ---- srt_sqrt -------------------------------------------------------------------

  /** `q` is the integer square root of `x` and `r` the remainder. */
  predicate IsRoot(x: nat, q: nat, r: nat) { x == q * q + r && r <= 2 * q }

  /** The radicand as the loop sees it: padded to two bits per digit of the root. */
  function Padded(a: nat, n: nat): nat
    requires n >= 1
  {
    a * Pow2(2 * n - 2)
  }

  method SrtSqrt(a: nat, n: nat := 56) returns (root: nat, sticky: bool)
    requires TWO_52 <= a < TWO_54 && n >= 1
    ensures root * root * TWO_52 <= Padded(a, n) < (root + 1) * (root + 1) * TWO_52
    ensures sticky <==> root * root * TWO_52 != Padded(a, n)
    ensures Pow2(n - 1) <= root < Pow2(n)
  {
    var total := n + 26;
    var padded := a * Pow2(2 * total - 54);
    var q: int, r: int := 0, 0;
    PaddedFits(a, n);
    for i := 0 to total
      invariant 0 <= q && 0 <= r && IsRoot(padded / Pow2(2 * (total - i)), q, r)
    {
      var pair := padded / Pow2(2 * (total - 1 - i)) % 4;
      NextPair(padded, total - 1 - i);
      ghost var q0, r0 := q, r;
      r := r * 4 + pair;
      var t := q * 4 + 1;
      if r >= t {
        r, q := r - t, q * 2 + 1;
      } else {
        q := q * 2;
      }
      NextRootBit(padded / Pow2(2 * (total - i)), q0, r0, pair);
    }
    assert IsRoot(padded, q, r);
    RootShifted(padded, q, r);
    RootRange(a, n, q, r);
    return q / TWO_26, q % TWO_26 != 0 || r != 0;
  }

  lemma PaddedFits(a: nat, n: nat)
    requires TWO_52 <= a < TWO_54 && n >= 1
    ensures Padded(a, n) / Pow2(2 * (n + 26)) == 0
  {
    hide Pow2;
    Powers();
    var p := Pow2(2 * n - 2);
    Pow2Split(54, 2 * n - 2);
    assert 2 * (n + 26) == 54 + (2 * n - 2);
    assert (TWO_54 - a) * p > 0;
    DivModUnique(a * p, TWO_54 * p, 0, a * p);
  }

  lemma Powers()
    ensures Pow2(26) == TWO_26 && Pow2(52) == TWO_52 && Pow2(53) == TWO_53 && Pow2(54) == TWO_54
  {
    hide Pow2;
    Pow2Of13();
    Pow2Split(13, 13);
    Pow2Split(26, 26);
    DoublePower(1, 52);
    DoublePower(1, 53);
  }

  lemma Pow2Of13()
    ensures Pow2(13) == 0x2000
  {
    assert Pow2(4) == 16 && Pow2(5) == 32;
    Pow2Split(4, 4);
    Pow2Split(8, 5);
  }

  /** Shifting in one more pair of bits. */
  lemma NextPair(x: nat, k: nat)
    ensures x / Pow2(2 * k) == x / Pow2(2 * (k + 1)) * 4 + x / Pow2(2 * k) % 4
  {
    hide Pow2;
    DoublePower(1, 2 * k);
    DoublePower(1, 2 * k + 1);
    Coarser(x, Pow2(2 * k), 4, Pow2(2 * (k + 1)));
  }

  /** One more digit of the root, by the trial subtraction of 4q + 1. */
  lemma NextRootBit(x: nat, q: nat, r: nat, pair: nat)
    requires IsRoot(x, q, r) && pair < 4
    ensures var r' := r * 4 + pair;
            if r' >= q * 4 + 1 then IsRoot(x * 4 + pair, q * 2 + 1, r' - (q * 4 + 1))
            else IsRoot(x * 4 + pair, q * 2, r')
  {
    assert (q * 2 + 1) * (q * 2 + 1) == q * q * 4 + q * 4 + 1;
    assert q * 2 * (q * 2) == q * q * 4;
  }

  /** Dropping the low 26 bits of the root keeps floor and sticky. */
  lemma RootShifted(x: nat, q: nat, r: nat)
    requires IsRoot(x, q, r)
    ensures var root := q / TWO_26;
            && root * root * TWO_52 <= x < (root + 1) * (root + 1) * TWO_52
            && (q % TWO_26 != 0 || r != 0 <==> root * root * TWO_52 != x)
  {
    var root, low := q / TWO_26, q % TWO_26;
    var h := root * TWO_26;
    assert q == h + low;
    assert h * h == root * root * TWO_52;
    assert (h + TWO_26) * (h + TWO_26) == (root + 1) * (root + 1) * TWO_52;
    Squares(h, q);
    Squares(q + 1, h + TWO_26);
    assert (q + 1) * (q + 1) == q * q + 2 * q + 1;
  }

  lemma Squares(x: nat, y: nat)
    requires x <= y
    ensures x * x <= y * y
    ensures x < y ==> x * x < y * y
  {
    var d := y - x;
    assert y * y == x * x + 2 * (x * d) + d * d;
    assert x * d >= 0;
    if d > 0 { assert d * d >= d by { ProductBound(d, d); } }
  }

  lemma RootRange(a: nat, n: nat, q: nat, r: nat)
    requires TWO_52 <= a < TWO_54 && n >= 1 && IsRoot(Padded(a, n), q, r)
    ensures Pow2(n - 1) <= q / TWO_26 < Pow2(n)
  {
    var p := Pow2(n - 1);
    Pow2Split(n - 1, n - 1);
    assert Pow2(n) == 2 * p;
    RootBetween(a, p, q, r);
  }

  lemma RootBetween(a: nat, p: nat, q: nat, r: nat)
    requires TWO_52 <= a < TWO_54 && IsRoot(a * (p * p), q, r) && p > 0
    ensures p <= q / TWO_26 < 2 * p
  {
    var lo, hi := p * TWO_26, 2 * p * TWO_26;
    RadicandBetween(a, p, lo, hi);
    assert (q + 1) * (q + 1) == q * q + 2 * q + 1;
    SquareLess(lo, q + 1);
    SquareLess(q, hi);
  }

  lemma RadicandBetween(a: nat, p: nat, lo: nat, hi: nat)
    requires TWO_52 <= a < TWO_54 && p > 0 && lo == p * TWO_26 && hi == 2 * lo
    ensures lo * lo <= a * (p * p) < hi * hi
  {
    var pp := p * p;
    assert lo * lo == pp * TWO_52;
    assert hi * hi == pp * TWO_54;
    assert pp > 0;
    assert (a - TWO_52) * pp >= 0 && (TWO_54 - a) * pp > 0;
  }

  lemma SquareLess(x: nat, y: nat)
    ensures x * x < y * y ==> x < y
  {
    if x >= y { Squares(y, x); }
  }

  // ---- Rounding to 53 bits never meets a tie ----------------------------------------

  /** The `half`-weight digit decides: rounding to a multiple of `2 * half`. */
  function RoundOff(digits: nat, half: nat): nat
    requires half > 0
  {
    digits / (2 * half) + if digits % (2 * half) >= half then 1 else 0
  }

  /** The digits stand exactly halfway between two multiples of `2 * half`. */
  predicate Tie(digits: nat, half: nat, sticky: bool)
    requires half > 0
  {
    digits % (2 * half) == half && !sticky
  }

  lemma PowerOfNone()
    ensures Pow2(0) == 1
  {}

  lemma HalveEven(odd: nat, b: nat, h: nat)
    requires odd % 2 == 1 && odd * b == 2 * h
    ensures b % 2 == 0 && (b > 0 ==> b / 2 > 0) && h == odd * (b / 2)
  {
    var m, k := odd / 2, b / 2;
    assert odd * b == 2 * (m * b) + b;
    assert b == 2 * k;
    assert odd * (2 * k) == 2 * (odd * k);
  }

  /** The factors of two of `odd * b` are those of `b`. */
  lemma {:induction false} EvenFactor(k: nat, x: nat, odd: nat, b: nat)
    requires odd % 2 == 1 && x * Pow2(k) == odd * b && b > 0
    ensures b >= Pow2(k)
  {
    hide Pow2;
    if k == 0 {
      PowerOfNone();
    } else {
      var p := Pow2(k - 1);
      DoublePower(1, k - 1);
      assert x * (2 * p) == 2 * (x * p);
      HalveEven(odd, b, x * p);
      EvenFactor(k - 1, x, odd, b / 2);
    }
  }

  lemma TieIsOdd(digits: nat, half: nat)
    requires half > 0 && digits % (2 * half) == half
    ensures var odd := 2 * (digits / (2 * half)) + 1; digits == odd * half && odd % 2 == 1
  {
    var m, _ := DivMod(digits, 2 * half);
    Regrouped(m, 2, 1, half);
  }

  /** x / b lies strictly within `half` of `q`. */
  predicate Within(x: nat, b: nat, q: nat, half: nat) { (q - half) * b < x < (q + half) * b }

  /** Rounding off the floor of x / b when it is no tie is strictly nearest. */
  lemma Nearest(x: nat, b: nat, half: nat)
    requires b > 0 && half > 0 && !Tie(x / b, half, x % b != 0)
    ensures Within(x, b, RoundOff(x / b, half) * (2 * half), half)
  {
    var d, r := x / b, x % b;
    var q := RoundOff(d, half) * (2 * half);
    RoundOffNear(d, half);
    assert q - half == d ==> r > 0;
    hide RoundOff, Tie;
    Between(d, b, r, q - half, q + half);
  }

  lemma Between(d: int, b: nat, r: nat, lo: int, hi: int)
    requires lo <= d < hi && r < b && (lo == d ==> r > 0)
    ensures lo * b < d * b + r < hi * b
  {
    Gap(d, hi, b);
    if lo < d { Gap(lo, d, b); }
  }

  lemma Gap(x: int, y: int, b: nat)
    requires x < y
    ensures x * b + b <= y * b
  {
    var g := y - x - 1;
    assert g * b >= 0;
    assert g * b == y * b - x * b - b;
  }

  lemma RoundOffNear(d: nat, half: nat)
    requires half > 0
    ensures var q := RoundOff(d, half) * (2 * half);
            q - half <= d < q + half && (q - half == d ==> d % (2 * half) == half)
  {
    var m := d / (2 * half);
    assert (m + 1) * (2 * half) == m * (2 * half) + 2 * half;
  }

  /** Of normalised significands: whatever the number of digits, the quotient is
      never halfway between two 53-bit ones, so the rounding digit alone decides
      and what it decides is strictly nearest. A quotient below one has one
      significant digit less. */
  lemma QuotientNeverTies(a: nat, b: nat, n: nat, x: nat, half: nat)
    requires TWO_52 <= a < TWO_53 && TWO_52 <= b < TWO_53 && n >= 55
    requires x == a * Pow2(n - 1) && half == if a >= b then Pow2(n - 54) else Pow2(n - 55)
    ensures !Tie(x / b, half, x % b != 0)
    ensures Within(x, b, RoundOff(x / b, half) * (2 * half), half)
  {
    hide Within, RoundOff;
    var k := if a >= b then 53 else 54;
    Pow2Split(k, n - 1 - k);
    Powers();
    NoQuotientTie(a, b, half, k, x);
    Nearest(x, b, half);
  }

  lemma NoQuotientTie(a: nat, b: nat, half: nat, k: nat, x: nat)
    requires half > 0 && 0 < b < Pow2(k) && x == a * (Pow2(k) * half)
    ensures !Tie(x / b, half, x % b != 0)
  {
    hide Pow2;
    if Tie(x / b, half, x % b != 0) {
      TieIsOdd(x / b, half);
      QuotientTie(a, b, half, k, x, 2 * (x / b / (2 * half)) + 1);
    }
  }

  lemma QuotientTie(a: nat, b: nat, half: nat, k: nat, x: nat, odd: nat)
    requires half > 0 && b > 0 && odd % 2 == 1
    requires x == a * (Pow2(k) * half) && x / b == odd * half && x % b == 0
    ensures b >= Pow2(k)
  {
    assert x == odd * half * b;
    assert a * Pow2(k) * half == odd * b * half;
    CancelFactor(a * Pow2(k), odd * b, half);
    EvenFactor(k, a, odd, b);
  }

  lemma CancelFactor(x: int, y: int, m: nat)
    requires m > 0 && x * m == y * m
    ensures x == y
  {
    DivModUnique(x * m, m, x, 0);
    DivModUnique(y * m, m, y, 0);
  }

  /** The root of a significand is never halfway between two 53-bit ones, whatever
      the number of digits; rounded off it is strictly nearest, by squares. */
  lemma RootNeverTies(a: nat, n: nat, root: nat)
    requires TWO_52 <= a < TWO_54 && n >= 54 && Pow2(n - 1) <= root
    requires root * root * TWO_52 <= Padded(a, n) < (root + 1) * (root + 1) * TWO_52
    ensures var half := Pow2(n - 54);
            var q := RoundOff(root, half) * (2 * half);
            && !Tie(root, half, root * root * TWO_52 != Padded(a, n))
            && q >= half
            && (q - half) * (q - half) * TWO_52 < Padded(a, n) < (q + half) * (q + half) * TWO_52
  {
    hide Pow2, RoundOff, Padded;
    var half := Pow2(n - 54);
    var q := RoundOff(root, half) * (2 * half);
    NoRootTie(a, n, root, half);
    RoundOffNear(root, half);
    HalfBelow(n, root, q);
    Squares(q - half, root);
    Squares(root + 1, q + half);
  }

  lemma NoRootTie(a: nat, n: nat, root: nat, half: nat)
    requires n >= 54 && half == Pow2(n - 54)
    ensures !Tie(root, half, root * root * TWO_52 != Padded(a, n))
  {
    hide Pow2, Padded;
    if Tie(root, half, root * root * TWO_52 != Padded(a, n)) {
      TieIsOdd(root, half);
      RootTie(a, n, half, 2 * (root / (2 * half)) + 1);
    }
  }

  lemma HalfBelow(n: nat, root: nat, q: nat)
    requires n >= 54 && Pow2(n - 1) <= root < q + Pow2(n - 54)
    ensures root >= Pow2(n - 54) && q >= Pow2(n - 54)
  {
    Pow2Split(53, n - 54);
    Powers();
  }

  /** A tie would make the square of an odd number even. */
  lemma RootTie(a: nat, n: nat, half: nat, odd: nat)
    requires n >= 54 && half == Pow2(n - 54)
    requires odd * half * (odd * half) * TWO_52 == Padded(a, n)
    ensures odd % 2 == 0
  {
    PaddedSplit(a, n);
    hide Pow2, Padded;
    var hh := half * half * TWO_52;
    assert half * half > 0;
    assert odd * half * (odd * half) * TWO_52 == odd * odd * hh;
    CancelFactor(odd * odd, a * TWO_54, hh);
    EvenSquare(odd, a * TWO_53);
  }

  lemma Regroup(a: nat, p: nat)
    ensures a * (p * TWO_54) == a * TWO_54 * p
  {}

  lemma PaddedSplit(a: nat, n: nat)
    requires n >= 54
    ensures Padded(a, n) == a * TWO_54 * (Pow2(n - 54) * Pow2(n - 54) * TWO_52)
  {
    hide Pow2;
    Powers();
    Pow2Split(n - 54, n - 54);
    Pow2Split(2 * n - 108, 52);
    Pow2Split(2 * n - 56, 54);
    var h := Pow2(n - 54);
    assert Pow2(2 * n - 2) == h * h * TWO_52 * TWO_54;
    Regroup(a, h * h * TWO_52);
  }

  lemma EvenSquare(odd: nat, h: nat)
    requires odd * odd == 2 * h
    ensures odd % 2 == 0
  {
    var m := odd / 2;
    assert odd * odd == 2 * (m * odd) + odd % 2 * odd;
  }
}
