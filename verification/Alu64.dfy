/** The structural ALU (rtl/common/kronos_alu.sv): one adder, a comparator on its
    sign bit, one right shifter with bit reversal for left shifts, and word
    operations on the same datapath; against plain arithmetic. */
module Alu64 {
  import opened Machine
  import opened Division
  import Rv32

  const XLEN: nat := 64

  function ShiftRight(x: nat, q: nat): nat
    requires q > 0
  {
    x / q
  }

  // ---- Bit reversal -----------------------------------------------------------------

  /** `{<<{x}}` on `n` bits: bit 0 goes to the top. */
  function Reverse(n: nat, x: nat): (r: nat)
    ensures r < Pow2(n)
    decreases n
  {
    if n == 0 then 0 else x % 2 * Pow2(n - 1) + Reverse(n - 1, x / 2)
  }

  lemma ReverseNone(x: nat)
    ensures Reverse(0, x) == 0
  {}

  lemma ReverseStep(n: nat, x: nat)
    requires n > 0
    ensures Reverse(n, x) == (if x % 2 == 1 then Pow2(n - 1) else 0) + Reverse(n - 1, x / 2)
  {}

  /** Seen from the other end: the top bit goes to bit 0. */
  lemma {:induction false} ReverseTop(n: nat, x: nat)
    requires n > 0 && x < Pow2(n)
    ensures Reverse(n, x) == 2 * Reverse(n - 1, x % Pow2(n - 1)) + x / Pow2(n - 1)
    decreases n
  {
    hide Reverse;
    if n == 1 {
      ReverseStep(1, x);
      ReverseNone(x / 2);
      ReverseNone(x % 1);
    } else {
      var p, h, b := Pow2(n - 2), x / 2, x % 2;
      assert Pow2(n - 1) == 2 * p;
      HalveModulo(x, p);
      ReverseTop(n - 1, h);
      ReverseStep(n, x);
      ReverseStep(n - 1, x % (2 * p));
    }
  }

  /** Halving commutes with taking the bits below a power of two. */
  lemma HalveModulo(x: nat, p: nat)
    requires p > 0
    ensures x % (2 * p) / 2 == x / 2 % p && x % (2 * p) % 2 == x % 2 && x / (2 * p) == x / 2 / p
  {
    var h, b := x / 2, x % 2;
    var q, r := h / p, h % p;
    assert x == q * (2 * p) + (2 * r + b);
    DivModUnique(x, 2 * p, q, 2 * r + b);
  }

  lemma {:induction false} ReverseTwice(n: nat, x: nat)
    requires x < Pow2(n)
    ensures Reverse(n, Reverse(n, x)) == x
    decreases n
  {
    hide Reverse;
    if n == 0 {
      ReverseNone(0);
    } else {
      var p, r := Pow2(n - 1), Reverse(n - 1, x / 2);
      ReverseTwice(n - 1, x / 2);
      ReverseStep(n, x);
      ReverseTop(n, Reverse(n, x));
      DivModUnique(Reverse(n, x), p, x % 2, r);
    }
  }

  /** Shifting the reversed word right by one is doubling the word. */
  lemma ReverseHalf(n: nat, y: nat)
    requires y < Pow2(n) && n > 0
    ensures Reverse(n, y / 2) == 2 * Reverse(n, y) % Pow2(n)
  {
    hide Reverse, Pow2;
    var p, h, b := Pow2(n - 1), y / 2, y % 2;
    PowerStep(n);
    ReverseStep(n, y);
    DivModUnique(h, p, 0, h);
    ReverseTop(n, h);
    var d := 2 * Reverse(n - 1, h);
    DivModUnique(2 * Reverse(n, y), 2 * p, b, d);
  }

  /** Reverse, shift right, reverse: a left shift, for every width and amount. */
  lemma {:induction false} ShiftLeftByReverse(n: nat, x: nat, s: nat)
    requires x < Pow2(n) && n > 0
    ensures Reverse(n, ShiftRight(Reverse(n, x), Pow2(s))) == x * Pow2(s) % Pow2(n)
    decreases s
  {
    hide Reverse, Pow2;
    if s == 0 {
      ReverseTwice(n, x);
      ShiftByNone(Reverse(n, x));
      ShiftByNone(x);
      DivModUnique(x, Pow2(n), 0, x);
    } else {
      ShiftLeftByReverse(n, x, s - 1);
      ShiftOneMore(n, x, Reverse(n, x), Pow2(s - 1), Pow2(n));
      PowerStep(s);
    }
  }

  lemma PowerStep(s: nat)
    requires s > 0
    ensures Pow2(s) == 2 * Pow2(s - 1)
  {}

  lemma ShiftByNone(x: nat)
    ensures x / Pow2(0) == x == x * Pow2(0)
  {}

  lemma ShiftOneMore(n: nat, x: nat, r: nat, q: nat, m: nat)
    requires n > 0 && m > 0 && m == Pow2(n) && q > 0 && r < m
    requires Reverse(n, ShiftRight(r, q)) == x * q % m
    ensures Reverse(n, ShiftRight(r, 2 * q)) == x * (2 * q) % m
  {
    hide Reverse, Pow2;
    var y := x * q;
    QuotientSmall(r, q, m);
    DivideByProduct(r, q);
    ReverseHalf(n, r / q);
    DoubleModulo(y, m);
    assert x * (2 * q) == 2 * y;
  }

  lemma QuotientSmall(x: nat, q: nat, m: nat)
    requires q > 0 && x < m
    ensures x / q < m
  {
    QuotientBound(x, q);
  }

  lemma DivideByProduct(x: nat, q: nat)
    requires q > 0
    ensures x / (2 * q) == x / q / 2
  {
    var y := x / q;
    assert x == y * q + x % q && y == y / 2 * 2 + y % 2;
    assert x == y / 2 * (2 * q) + (y % 2 * q + x % q);
    DivModUnique(x, 2 * q, y / 2, y % 2 * q + x % q);
  }

  lemma DoubleModulo(x: nat, m: nat)
    requires m > 0
    ensures 2 * (x % m) % m == 2 * x % m
  {
    var q, r := x / m, x % m;
    var k, t := 2 * r / m, 2 * r % m;
    assert 2 * x == (2 * q + k) * m + t;
    DivModUnique(2 * x, m, 2 * q + k, t);
  }

  // ---- The datapath -----------------------------------------------------------------

  predicate Negative(x: DWord) { x >= TWO_64 / 2 }

  /** Word operations work on zero-extended operands, but for SRAW. */
  function PreA(op: AluOp, a: DWord, wordOp: bool): DWord {
    if !wordOp then a else if op == Sra then SignExtend32(Low(a)) else Low(a)
  }

  function PreB(b: DWord, wordOp: bool): DWord { if wordOp then Low(b) else b }

  function Shamt(b: DWord, wordOp: bool): nat { if wordOp then b % 32 else b % 64 }

  predicate IsSlt(op: AluOp) { op == Slt || op == Sltu }

  /** One adder: subtraction is `a + ~b + 1`. */
  function AdderOut(op: AluOp, a: DWord, b: DWord): DWord {
    (a + (if op == Sub || IsSlt(op) then TWO_64 - 1 - b + 1 else b)) % TWO_64
  }

  /** The comparator: the adder's sign, unless the operands' signs differ. */
  predicate CmpLt(op: AluOp, a: DWord, b: DWord) {
    if Negative(a) != Negative(b) then if op == Slt then Negative(a) else Negative(b)
    else Negative(AdderOut(op, a, b))
  }

  /** The right shifter on 65 bits, with a fill bit for SRA. */
  function ShifterOut(op: AluOp, a: DWord, s: nat): DWord {
    Widths();
    var shin := if op == Sll then Reverse(XLEN, a) else a;
    var ext := shin - if op == Sra && Negative(a) then TWO_64 else 0;
    var shout := Pattern(2 * TWO_64, ext / Pow2(s)) % TWO_64;
    if op == Sll then Reverse(XLEN, shout) else shout
  }

  /** One bit of the logic block. */
  function Gate(op: AluOp, a: nat, b: nat): (c: nat)
    ensures c < 2
  {
    match op
    case And => if a == 1 && b == 1 then 1 else 0
    case Or => if a == 1 || b == 1 then 1 else 0
    case Xor => if a != b then 1 else 0
    case _ => 0
  }

  /** The gates side by side, on `n` bits. */
  function Bitwise(op: AluOp, n: nat, a: nat, b: nat): (r: nat)
    ensures r < Pow2(n)
    decreases n
  {
    if n == 0 then 0 else Gate(op, a % 2, b % 2) + 2 * Bitwise(op, n - 1, a / 2, b / 2)
  }

  function LogicOut(op: AluOp, a: DWord, b: DWord): DWord {
    Widths();
    if op == PassB then b else Bitwise(op, XLEN, a, b)
  }

  function Alu(op: AluOp, a: DWord, b: DWord, wordOp: bool): DWord {
    var x, y := PreA(op, a, wordOp), PreB(b, wordOp);
    var pre: DWord := match op
      case Sll | Srl | Sra => ShifterOut(op, x, Shamt(b, wordOp))
      case Slt | Sltu => if CmpLt(op, x, y) then 1 else 0
      case Add | Sub => AdderOut(op, x, y)
      case _ => LogicOut(op, x, y);
    if wordOp then SignExtend32(Low(pre)) else pre
  }

  lemma Pow2Of8()
    ensures Pow2(8) == 0x100
  {
    assert Pow2(4) == 16;
    Pow2Split(4, 4);
  }

  lemma Widths()
    ensures Pow2(32) == TWO_32 && Pow2(XLEN) == TWO_64
  {
    hide Pow2;
    Pow2Of8();
    Pow2Split(8, 8);
    Pow2Split(16, 16);
    Pow2Split(32, 32);
  }

  // ---- What it means ------------------------------------------------------------------

  function BitAt(x: nat, i: nat): (b: nat)
    ensures b < 2
  {
    x / Pow2(i) % 2
  }

  /** The operations in plain arithmetic, and bit by bit. */
  predicate Computes(op: AluOp, a: DWord, b: DWord, r: DWord) {
    match op
    case Add => r == (a + b) % TWO_64
    case Sub => r == Pattern(TWO_64, a - b)
    case Sll => r == a * Pow2(b % 64) % TWO_64
    case Slt => r == if Signed(TWO_64, a) < Signed(TWO_64, b) then 1 else 0
    case Sltu => r == if a < b then 1 else 0
    case Srl => r == a / Pow2(b % 64) % TWO_64
    case Sra => r == Pattern(TWO_64, Signed(TWO_64, a) / Pow2(b % 64))
    case And => forall i | 0 <= i < XLEN :: BitAt(r, i) == if BitAt(a, i) == 1 then BitAt(b, i) else 0
    case Or => forall i | 0 <= i < XLEN :: BitAt(r, i) == if BitAt(a, i) == 1 then 1 else BitAt(b, i)
    case Xor => forall i | 0 <= i < XLEN :: BitAt(r, i) == (BitAt(a, i) + BitAt(b, i)) % 2
    case PassB => r == b
  }

  lemma AdderIs(op: AluOp, a: DWord, b: DWord)
    ensures AdderOut(op, a, b) == if op == Sub || IsSlt(op) then Pattern(TWO_64, a - b) else (a + b) % TWO_64
  {
    if a >= b {
      DivModUnique(a - b + TWO_64, TWO_64, 1, a - b);
      DivModUnique(a - b, TWO_64, 0, a - b);
    } else {
      DivModUnique(a - b, TWO_64, -1, a - b + TWO_64);
      DivModUnique(a - b + TWO_64, TWO_64, 0, a - b + TWO_64);
    }
  }

  /** One subtractor's sign decides both orders. */
  lemma ComparatorIs(op: AluOp, a: DWord, b: DWord)
    requires IsSlt(op)
    ensures CmpLt(op, a, b) <==> if op == Slt then Signed(TWO_64, a) < Signed(TWO_64, b) else a < b
    ensures AdderOut(op, a, b) == 0 <==> a == b
  {
    AdderIs(op, a, b);
    if a >= b { DivModUnique(a - b, TWO_64, 0, a - b); } else { DivModUnique(a - b, TWO_64, -1, a - b + TWO_64); }
  }

  lemma ModuloTwice(v: int, m: nat, k: nat)
    requires m > 0 && k > 0
    ensures v % (k * m) % m == v % m
  {
    var q, r := v / (k * m), v % (k * m);
    var p, t := r / m, r % m;
    assert v == (q * k + p) * m + t;
    DivModUnique(v, m, q * k + p, t);
  }

  lemma RightShiftIs(a: DWord, s: nat)
    ensures ShifterOut(Srl, a, s) == a / Pow2(s) % TWO_64
    ensures ShifterOut(Sra, a, s) == Pattern(TWO_64, Signed(TWO_64, a) / Pow2(s))
  {
    hide Reverse, Pow2;
    ModuloTwice(a / Pow2(s), TWO_64, 2);
    ModuloTwice(Signed(TWO_64, a) / Pow2(s), TWO_64, 2);
  }

  lemma LeftShiftIs(a: DWord, s: nat)
    ensures ShifterOut(Sll, a, s) == a * Pow2(s) % TWO_64
  {
    hide Reverse, Pow2, Pattern;
    Widths();
    var r := Reverse(XLEN, a);
    QuotientSmall(r, Pow2(s), TWO_64);
    ShortPattern(r / Pow2(s));
    ShiftLeftByReverse(XLEN, a, s);
  }

  lemma ShortPattern(v: nat)
    requires v < TWO_64
    ensures Pattern(2 * TWO_64, v) % TWO_64 == v
  {
    DivModUnique(v, 2 * TWO_64, 0, v);
    DivModUnique(v, TWO_64, 0, v);
  }

  lemma BitStep(x: nat, i: nat)
    ensures BitAt(x, 0) == x % 2 && BitAt(x, i + 1) == BitAt(x / 2, i)
  {
    HalveModulo(x, Pow2(i));
  }

  lemma {:induction false} BitwiseBits(op: AluOp, n: nat, a: nat, b: nat, i: nat)
    requires i < n
    ensures BitAt(Bitwise(op, n, a, b), i) == Gate(op, BitAt(a, i), BitAt(b, i))
    decreases n
  {
    hide BitAt, Gate;
    var r, rest := Bitwise(op, n, a, b), Bitwise(op, n - 1, a / 2, b / 2);
    assert r % 2 == Gate(op, a % 2, b % 2) && r / 2 == rest;
    var k := if i == 0 then 0 else i - 1;
    BitStep(r, k);
    BitStep(a, k);
    BitStep(b, k);
    if i > 0 { BitwiseBits(op, n - 1, a / 2, b / 2, i - 1); }
  }

  lemma LogicBits(op: AluOp, a: DWord, b: DWord)
    requires op != PassB
    ensures forall i | 0 <= i < XLEN :: BitAt(LogicOut(op, a, b), i) == Gate(op, BitAt(a, i), BitAt(b, i))
  {
    hide Bitwise, BitAt, Gate, Pow2;
    forall i | 0 <= i < XLEN
      ensures BitAt(LogicOut(op, a, b), i) == Gate(op, BitAt(a, i), BitAt(b, i))
    {
      BitwiseBits(op, XLEN, a, b, i);
    }
  }

  lemma LogicIs(op: AluOp, a: DWord, b: DWord)
    requires op == And || op == Or || op == Xor || op == PassB
    ensures Computes(op, a, b, LogicOut(op, a, b))
  {
    hide Bitwise, BitAt, Pow2, Signed, Pattern;
    if op != PassB { LogicBits(op, a, b); }
  }

  /** The structural ALU computes every operation. */
  lemma AluIsPlain(op: AluOp, a: DWord, b: DWord)
    ensures Computes(op, a, b, Alu(op, a, b, false))
  {
    hide ShifterOut, AdderOut, CmpLt, LogicOut, Pow2;
    match op
    case Sll => LeftShiftIs(a, b % 64);
    case Srl | Sra => RightShiftIs(a, b % 64);
    case Slt | Sltu => ComparatorIs(op, a, b);
    case Add | Sub => AdderIs(op, a, b);
    case _ => LogicIs(op, a, b);
  }

  // ---- Word operations ------------------------------------------------------------------

  predicate HasWordForm(op: AluOp) { op in {Add, Sub, Sll, Srl, Sra} }

  lemma WordShift(op: AluOp, a: DWord, b: DWord)
    requires op == Sll || op == Srl || op == Sra
    ensures Low(ShifterOut(op, PreA(op, a, true), b % 32)) == Rv32.Alu(op, Low(a), Low(b))
  {
    hide ShifterOut, Pow2, SignExtend32;
    var x, s := PreA(op, a, true), b % 32;
    assert Low(b) % 32 == s by { ModuloTwice(b, 32, TWO_32 / 32); }
    match op
    case Sll =>
      LeftShiftIs(x, s);
      ModuloTwice(x * Pow2(s), TWO_32, TWO_32);
    case Srl =>
      RightShiftIs(x, s);
      ModuloTwice(x / Pow2(s), TWO_32, TWO_32);
    case Sra =>
      RightShiftIs(x, s);
      SignedOfExtended(Low(a));
      ModuloTwice(Signed(TWO_64, x) / Pow2(s), TWO_32, TWO_32);
  }

  lemma WordAdd(op: AluOp, a: DWord, b: DWord)
    requires op == Add || op == Sub
    ensures Low(AdderOut(op, Low(a), Low(b))) == Rv32.Alu(op, Low(a), Low(b))
  {
    hide AdderOut;
    AdderIs(op, Low(a), Low(b));
    ModuloTwice(Low(a) + Low(b), TWO_32, TWO_32);
    ModuloTwice(Low(a) - Low(b), TWO_32, TWO_32);
  }

  /** Each W-form is the stage-0 operation on the low words, sign-extended. */
  lemma WordFormIsAlu32(op: AluOp, a: DWord, b: DWord)
    requires HasWordForm(op)
    ensures Alu(op, a, b, true) == SignExtend32(Rv32.Alu(op, Low(a), Low(b)))
  {
    hide ShifterOut, AdderOut, Low, SignExtend32, Rv32.Alu;
    if op == Add || op == Sub { WordAdd(op, a, b); } else { WordShift(op, a, b); }
  }
}
