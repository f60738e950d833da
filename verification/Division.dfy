/** Two's complement, the meaning of the RISC-V M instructions (sections 7.1 and
    7.2 of the RISC-V Unprivileged ISA, 20191213), and one step of the restoring
    division loop, at any width: `m` is two to the register width. */
module Division {
  import opened Machine

  /** The value of the `m`-pattern `a` read as a signed number. */
  function Signed(m: nat, a: nat): int { if a < m / 2 then a else a - m }

  /** The `m`-pattern of an integer. */
  function Pattern(m: nat, i: int): (a: nat)
    requires m > 0
    ensures a < m
  {
    i % m
  }

  const TWO_64: nat := 0x1_0000_0000_0000_0000

  type DWord = x: nat | x < 0x1_0000_0000_0000_0000 witness 0

  /** The low word of a register. */
  function Low(a: nat): Word { a % TWO_32 }

  /** Widen a 32-bit result as every word instruction does. */
  function SignExtend32(a: Word): DWord { Pattern(TWO_64, Signed(TWO_32, a)) }

  function Abs(i: int): nat { if i < 0 then -i else i }

  /** Division that rounds toward zero. */
  function TruncDiv(x: int, y: int): int
    requires y != 0
  {
    if (x < 0) == (y < 0) then Abs(x) / Abs(y) else -(Abs(x) / Abs(y))
  }

  /** The remainder that goes with it; it has the sign of the dividend. */
  function TruncRem(x: int, y: int): int
    requires y != 0
  {
    x - y * TruncDiv(x, y)
  }

  /** What the M instructions compute on `m`-patterns. */
  function Meaning(m: nat, op: MulOp, a: nat, b: nat): (r: nat)
    requires m > 0 && a < m && b < m
    ensures r < m
  {
    match op
    case Mul => Pattern(m, Signed(m, a) * Signed(m, b))
    case Mulh => Pattern(m, Signed(m, a) * Signed(m, b) / m)
    case Mulhsu => Pattern(m, Signed(m, a) * b / m)
    case Mulhu => Pattern(m, a * b / m)
    case Div => if b == 0 then m - 1 else Pattern(m, TruncDiv(Signed(m, a), Signed(m, b)))
    case Divu => if b == 0 then m - 1 else Pattern(m, a / b)
    case Rem => if b == 0 then a else Pattern(m, TruncRem(Signed(m, a), Signed(m, b)))
    case Remu => if b == 0 then a else Pattern(m, a % b)
  }

  function Pow2(n: nat): (p: nat)
    ensures p > 0
  {
    if n == 0 then 1 else 2 * Pow2(n - 1)
  }

  // ---- The registers of the loop ------------------------------------------------

  /** Remainder (one bit wider than the rest), quotient and dividend. */
  datatype Loop = Loop(remainder: nat, quotient: nat, dividend: nat)

  /** {remainder[w-1:0], dividend[w-1]} */
  function Shifted(m: nat, l: Loop): nat
    requires m > 1
  {
    l.remainder % m * 2 + l.dividend / (m / 2)
  }

  /** The trial subtraction, as a (w+1)-bit pattern. */
  function Trial(m: nat, b: nat, l: Loop): nat
    requires m > 1
  {
    Pattern(2 * m, Shifted(m, l) - b)
  }

  /** Bit w of the trial: the subtraction borrowed. */
  predicate Borrows(m: nat, b: nat, l: Loop)
    requires m > 1
  {
    Trial(m, b, l) / m % 2 == 1
  }

  function LoopStep(m: nat, b: nat, l: Loop): (l': Loop)
    requires m > 1
    ensures l'.remainder < m && l'.quotient < m && l'.dividend < m
  {
    if !Borrows(m, b, l)
    then Loop(Trial(m, b, l) % m, l.quotient % (m / 2) * 2 + 1, l.dividend % (m / 2) * 2)
    else Loop(Shifted(m, l) % m, l.quotient % (m / 2) * 2, l.dividend % (m / 2) * 2)
  }

  /** Part way through the division of `d`, with `q` two to the number of bits
      still to come and `p` two to the number consumed: the bits consumed are
      the quotient times `b` plus the remainder, and the dividend register
      holds the rest. */
  predicate Divided(m: nat, d: nat, b: nat, p: nat, q: nat, l: Loop) {
    && p > 0 && q > 0 && p * q == m
    && l.remainder < b <= m
    && l.quotient < p
    && d / q == l.quotient * b + l.remainder
    && l.dividend == d % q * p
  }

  lemma {:induction false} Pow2Split(t: nat, u: nat)
    ensures Pow2(t + u) == Pow2(t) * Pow2(u)
  {
    if t > 0 { Pow2Split(t - 1, u); }
  }

  /** The trial's top bit is exactly the borrow. */
  lemma BorrowIsBorrow(m: nat, b: nat, l: Loop)
    requires m > 1 && b <= m && Shifted(m, l) < 2 * b
    ensures Borrows(m, b, l) <==> Shifted(m, l) < b
    ensures !Borrows(m, b, l) ==> Trial(m, b, l) % m == Shifted(m, l) - b
    ensures Borrows(m, b, l) ==> Shifted(m, l) % m == Shifted(m, l)
  {
    var x := Shifted(m, l) - b;
    if x >= 0 {
      DivModUnique(x, 2 * m, 0, x);
      DivModUnique(x, m, 0, x);
    } else {
      DivModUnique(x, 2 * m, -1, x + 2 * m);
      DivModUnique(x + 2 * m, m, 1, x + m);
      DivModUnique(Shifted(m, l), m, 0, Shifted(m, l));
    }
  }

  lemma LessFactor(x: int, y: int, b: nat)
    ensures x * b < y * b ==> x < y
  {
    if x >= y { assert (x - y) * b >= 0; }
  }

  lemma Regrouped(h: nat, c: nat, low: nat, q: nat)
    ensures (h * c + low) * q == h * (c * q) + low * q
  {
    assert (h * c + low) * q == h * c * q + low * q;
    assert h * c * q == h * (c * q);
  }

  lemma BelowProduct(low: nat, c: nat, q: nat, r: nat)
    requires low < c && r < q
    ensures low * q + r < c * q
  {
    var more := c - low - 1;
    assert c * q == more * q + low * q + q;
    assert more * q >= 0;
  }

  lemma DivMod(x: nat, m: nat) returns (k: nat, r: nat)
    requires m > 0
    ensures k == x / m && r == x % m && x == k * m + r && r < m
  {
    k, r := x / m, x % m;
  }

  /** Dividing by `c * q` is dividing by `q` and then by `c`. */
  lemma Coarser(d: nat, q: nat, c: nat, m: nat)
    requires q > 0 && c > 0 && m == c * q
    ensures m > 0 && d / m == d / q / c && d % m == d / q % c * q + d % q
  {
    var k, r := DivMod(d, q);
    var h, low := DivMod(k, c);
    CoarserParts(d, q, c, m, h, low, r);
  }

  lemma CoarserParts(d: nat, q: nat, c: nat, m: nat, h: nat, low: nat, r: nat)
    requires m == c * q && low < c && r < q && d == (h * c + low) * q + r
    ensures m > 0 && d / m == h && d % m == low * q + r
  {
    Regrouped(h, c, low, q);
    BelowProduct(low, c, q, r);
    DivModUnique(d, m, h, low * q + r);
  }

  lemma DivModUnique(x: int, m: nat, q: int, r: nat)
    requires m > 0 && x == q * m + r && r < m
    ensures x / m == q && x % m == r
  {
    var k := x / m - q;
    assert k * m == r - x % m;
  }

  /** A register that holds `bit * q + low` above `p` places: its top and the rest. */
  lemma ShiftOut(q: nat, p: nat, bit: nat, low: nat)
    requires p > 0 && low < q
    ensures q * p > 0
    ensures (bit * q + low) * p / (q * p) == bit && (bit * q + low) * p % (q * p) == low * p
  {
    assert (bit * q + low) * p == bit * (q * p) + low * p;
    assert (q - low) * p > 0;
    assert low * p < q * p;
    assert q * p > 0;
    DivModUnique((bit * q + low) * p, q * p, bit, low * p);
  }

  lemma Factors(p: nat, q: nat)
    requires p > 0 && q > 0
    ensures p * (2 * q) == 2 * (p * q) && q * p == p * q > 0
  {}

  lemma Unpack(m: nat, d: nat, b: nat, p: nat, q: nat, l: Loop)
    requires Divided(m, d, b, p, q, l)
    ensures p > 0 && p * q == m && d / q == l.quotient * b + l.remainder && l.dividend == d % q * p
  {}

  /** The bit shifted out of the dividend register is the next bit of `d`. */
  lemma NextBit(m: nat, d: nat, b: nat, p: nat, q: nat, l: Loop)
    requires q > 0 && Divided(m, d, b, p, 2 * q, l)
    ensures m / 2 == p * q && m > 1
    ensures var bit := d / q % 2;
            && l.dividend / (p * q) == bit
            && l.dividend % (p * q) * 2 == d % q * (2 * p)
            && d / q == (l.quotient * b + l.remainder) * 2 + bit
  {
    hide Divided;
    Unpack(m, d, b, p, 2 * q, l);
    Factors(p, q);
    Coarser(d, q, 2, 2 * q);
    var k, low := DivMod(d, q);
    ShiftOut(q, p, k % 2, low);
    assert low * p * 2 == low * (2 * p);
  }

  /** Both outcomes of the trial keep quotient * b + remainder. */
  lemma Accept(quotient: nat, remainder: nat, b: nat, bit: nat, shifted: nat)
    requires shifted == remainder * 2 + bit
    ensures (quotient * b + remainder) * 2 + bit == quotient * 2 * b + shifted
    ensures (quotient * b + remainder) * 2 + bit == (quotient * 2 + 1) * b + (shifted - b)
  {
    assert (quotient * b) * 2 == quotient * 2 * b;
    assert (quotient * 2 + 1) * b == quotient * 2 * b + b;
  }

  lemma QuotientFits(p: nat, q: nat, quotient: nat)
    requires p > 0 && q > 0 && quotient < p
    ensures p * q > 0 && quotient % (p * q) == quotient
  {
    assert p * q >= p;
    DivModUnique(quotient, p * q, 0, quotient);
  }

  /** One step of the loop consumes one more bit of the dividend. */
  lemma StepDivides(m: nat, d: nat, b: nat, p: nat, q: nat, l: Loop)
    requires q > 0 && Divided(m, d, b, p, 2 * q, l)
    ensures m > 1 && Divided(m, d, b, 2 * p, q, LoopStep(m, b, l))
  {
    hide LoopStep, Shifted, Divided;
    NextBit(m, d, b, p, q, l);
    InBounds(m, d, b, p, 2 * q, l);
    var half, bit, s := p * q, d / q % 2, l.remainder * 2 + d / q % 2;
    assert 2 * half == m by { assert p * (2 * q) == 2 * (p * q); }
    LoopStepIs(m, b, l, half, bit);
    QuotientFits(p, q, l.quotient);
    Accept(l.quotient, l.remainder, b, bit, s);
    if s < b {
      MakeDivided(m, d, b, 2 * p, q, Loop(s, l.quotient * 2, l.dividend % half * 2));
    } else {
      MakeDivided(m, d, b, 2 * p, q, Loop(s - b, l.quotient * 2 + 1, l.dividend % half * 2));
    }
  }

  lemma InBounds(m: nat, d: nat, b: nat, p: nat, q: nat, l: Loop)
    requires Divided(m, d, b, p, q, l)
    ensures p > 0 && p * q == m && l.remainder < b <= m && l.quotient < p
  {}

  lemma MakeDivided(m: nat, d: nat, b: nat, p: nat, q: nat, l: Loop)
    requires p > 0 && q > 0 && m == 2 * (p / 2 * q) && p % 2 == 0 && l.remainder < b <= m && l.quotient < p
    requires d / q == l.quotient * b + l.remainder && l.dividend == d % q * p
    ensures Divided(m, d, b, p, q, l)
  {
    var h := p / 2;
    assert 2 * h * q == 2 * (h * q);
  }

  /** The step in plain arithmetic, with `bit` the one shifted out of the dividend. */
  lemma LoopStepIs(m: nat, b: nat, l: Loop, half: nat, bit: nat)
    requires m == 2 * half && half > 0 && b <= m && l.remainder < b && bit < 2 && l.dividend / half == bit
    ensures var s := l.remainder * 2 + bit;
            LoopStep(m, b, l) ==
            if s < b then Loop(s, l.quotient % half * 2, l.dividend % half * 2)
            else Loop(s - b, l.quotient % half * 2 + 1, l.dividend % half * 2)
  {
    hide Trial, Borrows;
    DivModUnique(l.remainder, m, 0, l.remainder);
    assert m / 2 == half;
    BorrowIsBorrow(m, b, l);
  }

  /** Before the first step. */
  lemma LoopStarts(m: nat, d: nat, b: nat)
    requires d < m && 0 < b <= m
    ensures Divided(m, d, b, 1, m, Loop(0, 0, d))
  {
    DivModUnique(d, m, 0, d);
  }

  /** When `q` is what is left, the loop holds the quotient and the remainder. */
  lemma FullyDivided(m: nat, d: nat, b: nat, p: nat, q: nat, l: Loop)
    requires Divided(m, d, b, p, q, l)
    ensures l.quotient == d / q / b && l.remainder == d / q % b
  {
    DivModUnique(d / q, b, l.quotient, l.remainder);
  }

  // ---- Signs --------------------------------------------------------------------

  /** ~x + 1 */
  function Negate(m: nat, x: nat): (r: nat)
    requires m > 0
    ensures r < m
  {
    (m - 1 - x + 1) % m
  }

  /** The magnitude register: `a` negated when it is signed and negative. */
  function Magnitude(m: nat, signed: bool, a: nat): (r: nat)
    requires m > 0
    ensures a < m ==> r < m
  {
    if signed && a >= m / 2 then Negate(m, a) else a
  }

  lemma MagnitudeIsAbs(m: nat, a: nat)
    requires m > 1 && m % 2 == 0 && a < m
    ensures Magnitude(m, true, a) == Abs(Signed(m, a)) <= m / 2
    ensures Magnitude(m, false, a) == a
  {
    if a >= m / 2 { DivModUnique(m - a, m, 0, m - a); }
  }

  /** Sign-correcting the quotient of the magnitudes gives the quotient that
      rounds toward zero; the overflow case wraps to the dividend. */
  lemma SignedQuotient(m: nat, a: nat, b: nat)
    requires m > 1 && m % 2 == 0 && a < m && b < m && b != 0
    ensures var q := Abs(Signed(m, a)) / Abs(Signed(m, b));
            && q <= m / 2
            && Pattern(m, TruncDiv(Signed(m, a), Signed(m, b)))
               == if (a >= m / 2) != (b >= m / 2) then Negate(m, q) else q
  {
    var x, y := Abs(Signed(m, a)), Abs(Signed(m, b));
    QuotientBound(x, y);
    NegatePattern(m, x / y);
  }

  lemma NegatePattern(m: nat, x: nat)
    requires 1 < m && x < m
    ensures Pattern(m, x) == x && Pattern(m, 0 - x) == Negate(m, x)
  {
    DivModUnique(x, m, 0, x);
    assert m - 1 - x + 1 == m - x;
    if x > 0 {
      DivModUnique(0 - x, m, -1, m - x);
      DivModUnique(m - x, m, 0, m - x);
    } else {
      DivModUnique(0, m, 0, 0);
      DivModUnique(m, m, 1, 0);
    }
  }

  lemma SignedOfExtended(a: Word)
    ensures Signed(TWO_64, SignExtend32(a)) == Signed(TWO_32, a)
  {
    var i := Signed(TWO_32, a);
    if i >= 0 { DivModUnique(i, TWO_64, 0, i); } else { DivModUnique(i, TWO_64, -1, i + TWO_64); }
  }

  lemma ProductBound(q: int, y: nat)
    requires y > 0
    ensures q >= 0 ==> q <= q * y
  {
    assert q * y == q * (y - 1) + q;
  }

  lemma QuotientBound(x: nat, y: nat)
    requires y > 0
    ensures x / y <= x
  {
    var q, r := x / y, x % y;
    ProductBound(q, y);
    assert x == q * y + r;
  }

  /** Sign-correcting the remainder of the magnitudes gives the remainder with
      the sign of the dividend. */
  lemma SignedRemainder(m: nat, a: nat, b: nat)
    requires m > 1 && m % 2 == 0 && a < m && b < m && b != 0
    ensures var r := Abs(Signed(m, a)) % Abs(Signed(m, b));
            && r < m / 2 + 1
            && Pattern(m, TruncRem(Signed(m, a), Signed(m, b))) == if a >= m / 2 then Negate(m, r) else r
  {
    var x, y := Signed(m, a), Signed(m, b);
    TruncRemSign(x, y);
    NegatePattern(m, Abs(x) % Abs(y));
  }

  /** The remainder of rounding toward zero is that of the magnitudes, with the
      sign of the dividend. */
  lemma TruncRemSign(x: int, y: int)
    requires y != 0
    ensures TruncRem(x, y) == if x < 0 then 0 - Abs(x) % Abs(y) else Abs(x) % Abs(y)
  {
    var q: int, r: int := Abs(x) / Abs(y), Abs(x) % Abs(y);
    assert Abs(x) == q * Abs(y) + r;
    if y < 0 {
      assert y * q == 0 - q * Abs(y);
      assert y * (0 - q) == q * Abs(y);
    } else {
      assert y * q == q * Abs(y);
      assert y * (0 - q) == 0 - q * Abs(y);
    }
  }
}
