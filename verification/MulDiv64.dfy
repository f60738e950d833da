/** The RV64M multiply/divide unit of rtl/common/kronos_muldiv.sv, word
    operations included. */
module MulDiv64 {
  import opened Machine
  import opened Division
  import opened MulDiv32

  const TWO_65: nat := 0x2_0000_0000_0000_0000
  const TWO_33: nat := 0x2_0000_0000
  const TWO_98: nat := 0x4_0000_0000_0000_0000_0000_0000
  const TWO_130: nat := 0x4_0000_0000_0000_0000_0000_0000_0000_0000

  function ZeroOrSignExtend32(signed: bool, a: Word): DWord { if signed then SignExtend32(a) else a }

  datatype Job = Job(op: MulOp, a: DWord, b: DWord, word: bool)

  /** The RV64M instructions: only MULW among the multiplications has a word form. */
  predicate InIsa(j: Job) { j.word && IsMul(j.op) ==> j.op == Mul }

  /** What the instruction computes; a word form computes on the low halves and
      sign-extends. */
  function IsaResult(j: Job): DWord {
    if j.word then SignExtend32(Meaning(TWO_32, j.op, Low(j.a), Low(j.b)))
    else Meaning(TWO_64, j.op, j.a, j.b)
  }

  /** The value of the `m`-pattern that a register of that width keeps of `i`. */
  function Kept(m: nat, i: int): int
    requires m > 0
  {
    Signed(m, Pattern(m, i))
  }

  // ---- The multiplier -----------------------------------------------------------

  /** A multiplier operand as its 65-bit register holds it. */
  function Operand65(signed: bool, word: bool, a: DWord): int {
    var eff := if word then ZeroOrSignExtend32(signed, Low(a)) else a;
    if signed then Signed(TWO_64, eff) else eff
  }

  /** b65[31:0] */
  function LowPart(b: int): nat { b % TWO_32 }

  /** b65[64:32] as a signed number. */
  function HighPart(b: int): int { Kept(TWO_33, Pattern(TWO_65, b) / TWO_32) }

  function PartialLow(a: int, b: int): int { Kept(TWO_98, a * LowPart(b)) }

  function PartialHigh(a: int, b: int): int { Kept(TWO_98, a * HighPart(b)) }

  /** The 130-bit sum of the partial products. */
  function Product130(low: int, high: int): nat { Pattern(TWO_130, high * TWO_32 + low) }

  function MulSelect(op: MulOp, product: nat): DWord {
    if op == Mul then product % TWO_64 else product / TWO_64 % TWO_64
  }

  function WordResult(word: bool, a: DWord): DWord { if word then SignExtend32(Low(a)) else a }

  predicate Fits65(a: int) { 0 - TWO_64 <= a < TWO_64 }

  lemma KeptFits(m: nat, i: int)
    requires m > 0 && m % 2 == 0 && 0 - m / 2 <= i < m / 2
    ensures Kept(m, i) == i
  {
    if i >= 0 { DivModUnique(i, m, 0, i); } else { DivModUnique(i, m, -1, i + m); }
  }

  lemma HighLow(b: int)
    requires Fits65(b)
    ensures HighPart(b) * TWO_32 + LowPart(b) == b && LowPart(b) < TWO_32 && 0 - TWO_32 <= HighPart(b) < TWO_32
  {
    var h := b / TWO_32;
    if b >= 0 {
      DivModUnique(b, TWO_65, 0, b);
    } else {
      DivModUnique(b, TWO_65, -1, b + TWO_65);
      DivModUnique(b + TWO_65, TWO_32, h + TWO_33, LowPart(b));
      DivModUnique(h + TWO_33, TWO_33, 0, h + TWO_33);
    }
    if b >= 0 { KeptFits(TWO_33, h); }
  }

  lemma ProductRange(a: int, b: int, m: nat, n: nat)
    requires 0 - m <= a <= m && 0 - n <= b <= n
    ensures 0 - m * n <= a * b <= m * n
  {
    if a >= 0 { assert a * n <= m * n; assert a * (n - b) >= 0 && a * (n + b) >= 0; }
    else { assert (0 - a) * n <= m * n; assert (0 - a) * (n - b) >= 0 && (0 - a) * (n + b) >= 0; }
  }

  /** Splitting the multiplication loses nothing: no partial overflows 98 bits. */
  lemma SplitProduct(a: int, b: int)
    requires Fits65(a) && Fits65(b)
    ensures PartialHigh(a, b) * TWO_32 + PartialLow(a, b) == a * b
  {
    hide HighPart, LowPart;
    HighLow(b);
    var h, l := HighPart(b), LowPart(b);
    ProductRange(a, l, TWO_64, TWO_32);
    ProductRange(a, h, TWO_64, TWO_32);
    KeptFits(TWO_98, a * l);
    KeptFits(TWO_98, a * h);
    assert a * (h * TWO_32 + l) == a * h * TWO_32 + a * l;
  }

  lemma Operand65Fits(signed: bool, word: bool, a: DWord)
    ensures Fits65(Operand65(signed, word, a))
    ensures !word ==> Operand65(signed, word, a) == if signed then Signed(TWO_64, a) else a
    ensures word && signed ==> Operand65(signed, word, a) == Signed(TWO_32, Low(a))
  {
    if word && signed { SignedOfExtended(Low(a)); }
  }

  /** The low 64 bits and the next 64 do not depend on where the sum was cut off. */
  lemma SelectMatches(i: int)
    ensures Pattern(TWO_130, i) % TWO_64 == Pattern(TWO_64, i)
    ensures Pattern(TWO_130, i) / TWO_64 % TWO_64 == Pattern(TWO_64, i / TWO_64)
  {
    var x := Pattern(TWO_130, i);
    var hi, lo, k := x / TWO_64, x % TWO_64, i / TWO_130;
    DivModUnique(i, TWO_64, k * 0x4_0000_0000_0000_0000 + hi, lo);
    var hh, hl := hi / TWO_64, hi % TWO_64;
    DivModUnique(k * 0x4_0000_0000_0000_0000 + hi, TWO_64, k * 4 + hh, hl);
  }

  lemma LowOfPattern(i: int)
    ensures Pattern(TWO_64, i) % TWO_32 == Pattern(TWO_32, i)
  {
    var x := Pattern(TWO_64, i);
    DivModUnique(i, TWO_32, i / TWO_64 * TWO_32 + x / TWO_32, x % TWO_32);
  }

  function MulResult(j: Job): DWord {
    var a := Operand65(MulSignedA(j.op), j.word, j.a);
    var b := Operand65(MulSignedB(j.op), j.word, j.b);
    WordResult(j.word, MulSelect(j.op, Product130(PartialLow(a, b), PartialHigh(a, b))))
  }

  /** The split multiplication computes the ISA's MUL, MULH, MULHSU, MULHU and MULW. */
  lemma MulMatches(j: Job)
    requires IsMul(j.op) && InIsa(j)
    ensures MulResult(j) == IsaResult(j)
  {
    var a := Operand65(MulSignedA(j.op), j.word, j.a);
    var b := Operand65(MulSignedB(j.op), j.word, j.b);
    Operand65Fits(MulSignedA(j.op), j.word, j.a);
    Operand65Fits(MulSignedB(j.op), j.word, j.b);
    hide PartialHigh, PartialLow, Operand65, SignExtend32;
    SplitProduct(a, b);
    SelectMatches(a * b);
    LowOfPattern(a * b);
  }

  // ---- The divider --------------------------------------------------------------

  function DivOperand(op: MulOp, word: bool, a: DWord): DWord {
    if word then ZeroOrSignExtend32(IsSignedDiv(op), Low(a)) else a
  }

  function DivMagnitude(op: MulOp, word: bool, a: DWord): DWord {
    Magnitude(TWO_64, IsSignedDiv(op), DivOperand(op, word, a))
  }

  /** A word dividend sits in the upper half of its register. */
  function Unit(word: bool): nat { if word then TWO_32 else 1 }

  function Steps(word: bool): nat { if word then 32 else 64 }

  predicate IsNegative(a: DWord) { a >= TWO_64 / 2 }

  /** The special cases, if this is one: what the unit answers at once. */
  function SpecialCase(j: Job): Option<DWord> {
    var a, b := DivOperand(j.op, j.word, j.a), DivOperand(j.op, j.word, j.b);
    var intMin: DWord := if j.word then 0xFFFF_FFFF_8000_0000 else 0x8000_0000_0000_0000;
    if b == 0 then
      if IsRem(j.op) then Some(if j.word then SignExtend32(Low(j.a)) else j.a) else Some(TWO_64 - 1)
    else if j.op.Div? && a == intMin && b == TWO_64 - 1 then Some(intMin)
    else if j.op.Rem? && a == intMin && b == TWO_64 - 1 then Some(0)
    else None
  }

  /** The signs and the result selection of the last step. */
  function DivResult(j: Job, l: Loop): DWord
    requires l.remainder < TWO_64 && l.quotient < TWO_64
  {
    var a, b := DivOperand(j.op, j.word, j.a), DivOperand(j.op, j.word, j.b);
    WordResult(j.word,
      if IsRem(j.op) then if j.op.Rem? && IsNegative(a) then Negate(TWO_64, l.remainder) else l.remainder
      else if j.op.Div? && IsNegative(a) != IsNegative(b) then Negate(TWO_64, l.quotient) else l.quotient)
  }

  lemma DivMagnitudeIsAbs(op: MulOp, word: bool, a: DWord)
    ensures var m := if word then TWO_32 else TWO_64;
            var x := if word then Low(a) else a;
            && DivMagnitude(op, word, a) == Magnitude(m, IsSignedDiv(op), x)
            && (IsSignedDiv(op) ==> DivMagnitude(op, word, a) == Abs(Signed(m, x)) <= m / 2)
            && (!IsSignedDiv(op) ==> DivMagnitude(op, word, a) == x)
            && (IsSignedDiv(op) ==> (IsNegative(DivOperand(op, word, a)) <==> x >= m / 2))
            && (DivOperand(op, word, a) == 0 <==> x == 0)
  {
    var o := DivOperand(op, word, a);
    MagnitudeIsAbs(TWO_64, o);
    MagnitudeIsAbs(TWO_32, Low(a));
    SignedOfExtended(Low(a));
  }

  /** The special cases are the ISA's. */
  lemma SpecialMatches(j: Job)
    requires !IsMul(j.op)
    ensures SpecialCase(j).Some? ==> SpecialCase(j).value == IsaResult(j)
    ensures SpecialCase(j) == None ==> (if j.word then Low(j.b) else j.b) != 0
  {
    DivMagnitudeIsAbs(j.op, j.word, j.a);
    DivMagnitudeIsAbs(j.op, j.word, j.b);
    SignedOfExtended(Low(j.a));
    SignedOfExtended(Low(j.b));
  }

  lemma NegateWord(x: nat)
    requires x < TWO_32
    ensures Low(Negate(TWO_64, x)) == Negate(TWO_32, x)
  {
    NegatePattern(TWO_64, x);
    NegatePattern(TWO_32, x);
    LowOfPattern(0 - x);
  }

  /** The quotient and remainder of the magnitudes, sign-corrected, are the ISA's. */
  lemma DivMatches(j: Job, l: Loop)
    requires !IsMul(j.op) && SpecialCase(j) == None
    requires l.quotient == DivMagnitude(j.op, j.word, j.a) / DivMagnitude(j.op, j.word, j.b)
    requires l.remainder == DivMagnitude(j.op, j.word, j.a) % DivMagnitude(j.op, j.word, j.b)
    ensures l.remainder < TWO_64 && l.quotient < TWO_64 && DivResult(j, l) == IsaResult(j)
  {
    SpecialMatches(j);
    DivMagnitudeIsAbs(j.op, j.word, j.a);
    DivMagnitudeIsAbs(j.op, j.word, j.b);
    var m := if j.word then TWO_32 else TWO_64;
    var a, b := if j.word then Low(j.a) else j.a, if j.word then Low(j.b) else j.b;
    QuotientBound(DivMagnitude(j.op, j.word, j.a), DivMagnitude(j.op, j.word, j.b));
    SignedQuotient(m, a, b);
    SignedRemainder(m, a, b);
    DivModUnique(l.quotient, m, 0, l.quotient);
    DivModUnique(l.remainder, m, 0, l.remainder);
    if j.word {
      NegateWord(l.quotient);
      NegateWord(l.remainder);
    }
    hide DivMagnitude, SpecialCase, TruncDiv, TruncRem, Pattern, Magnitude, Negate, Signed;
  }

  // ---- The unit -----------------------------------------------------------------

  datatype Phase = Resting | MulIn | MulMid | MulOut | Iterating | Finished

  /** Registers that describe a division under way, `count` steps from its end. */
  predicate Dividing(j: Job, absB: nat, count: nat, l: Loop) {
    var unit := Unit(j.word);
    && !IsMul(j.op) && SpecialCase(j) == None
    && 1 <= count <= Steps(j.word)
    && absB == DivMagnitude(j.op, j.word, j.b)
    && Divided(TWO_64, DivMagnitude(j.op, j.word, j.a) * unit, absB,
               Pow2(Steps(j.word) - count), Pow2(count) * unit, l)
  }

  lemma CountBound(j: Job, absB: nat, count: nat, l: Loop)
    requires Dividing(j, absB, count, l)
    ensures 1 <= count <= 64
  {}

  lemma Pow2Of64()
    ensures Pow2(0) == 1 && Pow2(32) == TWO_32 && Pow2(64) == TWO_64
  {
    Pow2Of32();
    Pow2Split(32, 32);
  }

  lemma DividingStarts(j: Job)
    requires !IsMul(j.op) && SpecialCase(j) == None
    ensures Low(DivMagnitude(j.op, j.word, j.a)) * TWO_32 < TWO_64
    ensures j.word ==> Low(DivMagnitude(j.op, j.word, j.a)) == DivMagnitude(j.op, j.word, j.a)
    ensures Dividing(j, DivMagnitude(j.op, j.word, j.b), Steps(j.word),
                     Loop(0, 0, DivMagnitude(j.op, j.word, j.a) * Unit(j.word)))
  {
    hide DivMagnitude, SpecialCase, Pow2, Divided;
    SpecialMatches(j);
    MagnitudeFits(j);
    Pow2Of64();
    var d := DivMagnitude(j.op, j.word, j.a) * Unit(j.word);
    LoopStarts(TWO_64, d, DivMagnitude(j.op, j.word, j.b));
  }

  /** The magnitudes fit the operation's width, and the divisor is not zero. */
  lemma MagnitudeFits(j: Job)
    requires !IsMul(j.op) && (if j.word then Low(j.b) else j.b) != 0
    ensures var m := if j.word then TWO_32 else TWO_64;
            DivMagnitude(j.op, j.word, j.a) < m && 0 < DivMagnitude(j.op, j.word, j.b) < m
    ensures j.word ==> Low(DivMagnitude(j.op, j.word, j.a)) == DivMagnitude(j.op, j.word, j.a)
  {
    hide DivMagnitude;
    DivMagnitudeIsAbs(j.op, j.word, j.a);
    DivMagnitudeIsAbs(j.op, j.word, j.b);
    var m, b := if j.word then TWO_32 else TWO_64, if j.word then Low(j.b) else j.b;
    MagnitudeIsAbs(m, b);
    if j.word { DivModUnique(DivMagnitude(j.op, true, j.a), TWO_32, 0, DivMagnitude(j.op, true, j.a)); }
  }

  lemma DividingStep(j: Job, absB: nat, count: nat, l: Loop)
    requires Dividing(j, absB, count, l)
    ensures var unit := Unit(j.word);
            Divided(TWO_64, DivMagnitude(j.op, j.word, j.a) * unit, absB,
                    2 * Pow2(Steps(j.word) - count), Pow2(count - 1) * unit, LoopStep(TWO_64, absB, l))
  {
    var unit := Unit(j.word);
    assert Pow2(count) * unit == 2 * (Pow2(count - 1) * unit);
    StepDivides(TWO_64, DivMagnitude(j.op, j.word, j.a) * unit, absB,
                Pow2(Steps(j.word) - count), Pow2(count - 1) * unit, l);
  }

  lemma DividingGoesOn(j: Job, absB: nat, count: nat, l: Loop)
    requires Dividing(j, absB, count, l) && count > 1
    ensures Dividing(j, absB, count - 1, LoopStep(TWO_64, absB, l))
  {
    hide LoopStep, Divided, DivMagnitude, SpecialCase, Pow2;
    DividingStep(j, absB, count, l);
    assert Pow2(Steps(j.word) - (count - 1)) == 2 * Pow2(Steps(j.word) - count) by {
      DoublePow2(Steps(j.word) - count);
    }
  }

  lemma DoublePow2(n: nat)
    ensures Pow2(n + 1) == 2 * Pow2(n)
  {
  }

  lemma DividingEnds(j: Job, absB: nat, l: Loop)
    requires Dividing(j, absB, 1, l)
    ensures DivResult(j, LoopStep(TWO_64, absB, l)) == IsaResult(j)
  {
    var unit := Unit(j.word);
    var d := DivMagnitude(j.op, j.word, j.a);
    var l' := LoopStep(TWO_64, absB, l);
    DividingStep(j, absB, 1, l);
    assert Pow2(0) * unit == unit;
    hide LoopStep, DivMagnitude, SpecialCase, Pow2, DivResult, IsaResult;
    DivModUnique(d * unit, unit, d, 0);
    FullyDivided(TWO_64, d * unit, absB, 2 * Pow2(Steps(j.word) - 1), unit, l');
    DivMatches(j, l');
  }

  class MulDivUnit {
    var phase: Phase
    var result: DWord
    var mulA: int
    var mulB: int
    var ppLow: int
    var ppHigh: int
    var product: nat
    var op: MulOp
    var dividend: DWord
    var remainder: nat
    var quotient: DWord
    var absB: DWord
    var count: nat
    var divNeg: bool
    var remNeg: bool
    var isRem: bool
    var wordOp: bool

    /** The operation under way. */
    ghost var job: Job

    function Regs(): Loop
      reads this
    {
      Loop(remainder, quotient, dividend)
    }

    /** The registers hold an intermediate state of `job`; done, its ISA result. */
    ghost predicate Valid()
      reads this
    {
      match phase
      case Resting => true
      case MulIn => MulFor() && mulA == OperandA() && mulB == OperandB()
      case MulMid => MulFor() && ppLow == PartialLow(OperandA(), OperandB())
                     && ppHigh == PartialHigh(OperandA(), OperandB())
      case MulOut => MulFor() && product == Product130(PartialLow(OperandA(), OperandB()),
                                                       PartialHigh(OperandA(), OperandB()))
      case Iterating =>
        && wordOp == job.word
        && isRem == IsRem(job.op)
        && remNeg == (job.op.Rem? && IsNegative(DivOperand(job.op, job.word, job.a)))
        && divNeg == (job.op.Div? && IsNegative(DivOperand(job.op, job.word, job.a))
                                     != IsNegative(DivOperand(job.op, job.word, job.b)))
        && Dividing(job, absB, count, Regs())
      case Finished => InIsa(job) ==> result == IsaResult(job)
    }

    ghost predicate MulFor()
      reads this
    {
      IsMul(job.op) && op == job.op && wordOp == job.word
    }

    ghost function OperandA(): int
      reads this
    {
      Operand65(MulSignedA(job.op), job.word, job.a)
    }

    ghost function OperandB(): int
      reads this
    {
      Operand65(MulSignedB(job.op), job.word, job.b)
    }

    /** Clock edges until the result is out. */
    ghost function Left(): nat
      reads this
    {
      match phase
      case MulIn => 3
      case MulMid => 2
      case MulOut => 1
      case Iterating => count
      case _ => 0
    }

    constructor ()
      ensures Valid() && phase == Resting
    {
      phase, result, mulA, mulB, ppLow, ppHigh, product, op := Resting, 0, 0, 0, 0, 0, 0, Mul;
      dividend, remainder, quotient, absB, count := 0, 0, 0, 0, 0;
      divNeg, remNeg, isRem, wordOp := false, false, false, false;
    }

    /** Capture the operands of a division, or answer a special case at once. */
    method StartDivide(j: Job)
      requires !IsMul(j.op)
      modifies this
      ensures Valid() && job == j && phase != Resting && Left() <= Steps(j.word)
    {
      hide DivOperand, DivMagnitude, SpecialCase, IsNegative, IsaResult, InIsa, Divided;
      job, wordOp := j, j.word;
      var a, b := DivOperand(j.op, j.word, j.a), DivOperand(j.op, j.word, j.b);
      var absA := DivMagnitude(j.op, j.word, j.a);
      match SpecialCase(j) {
        case Some(v) =>
          SpecialMatches(j);
          phase, result := Finished, v;
        case None =>
          DividingStarts(j);
          dividend := if j.word then Low(absA) * TWO_32 else absA;
          remainder, quotient, absB := 0, 0, DivMagnitude(j.op, j.word, j.b);
          divNeg := j.op.Div? && IsNegative(a) != IsNegative(b);
          remNeg := j.op.Rem? && IsNegative(a);
          isRem := IsRem(j.op);
          count, phase := Steps(j.word), Iterating;
      }
    }

    /** One restoring step; the last one composes the result. */
    method DivideStep()
      requires Valid() && phase == Iterating
      modifies this
      ensures Valid() && job == old(job) && phase != Resting && Left() < old(Left())
    {
      hide LoopStep, Dividing, DivOperand, IsNegative, Negate, IsaResult, WordResult, InIsa;
      CountBound(job, absB, count, Regs());
      var l := LoopStep(TWO_64, absB, Regs());
      if count == 1 {
        DividingEnds(job, absB, Regs());
        var pre := if isRem then if remNeg then Negate(TWO_64, l.remainder) else l.remainder
                   else if divNeg then Negate(TWO_64, l.quotient) else l.quotient;
        result, phase := WordResult(wordOp, pre), Finished;
      } else {
        DividingGoesOn(job, absB, count, Regs());
      }
      remainder, quotient, dividend := l.remainder, l.quotient, l.dividend;
      count := (count + 127) % 128;
    }

    /** One clock edge. From idle a request starts an operation; while it runs the
        inputs do not matter and each edge brings the result closer; done, the
        unit falls idle. */
    method Clock(req: bool, opIn: MulOp, a: DWord, b: DWord, word: bool)
      requires Valid()
      modifies this
      ensures Valid()
      ensures old(phase) == Resting && !req ==> phase == Resting
      ensures old(phase) == Resting && req ==> phase != Resting && job == Job(opIn, a, b, word) && Left() <= Steps(word)
      ensures old(phase) != Resting && old(phase) != Finished ==>
                phase != Resting && job == old(job) && Left() < old(Left())
      ensures old(phase) == Finished ==> phase == Resting
    {
      match phase {
        case Resting =>
          if req {
            if IsMul(opIn) {
              job := Job(opIn, a, b, word);
              mulA, mulB := Operand65(MulSignedA(opIn), word, a), Operand65(MulSignedB(opIn), word, b);
              op, wordOp, phase := opIn, word, MulIn;
            } else {
              StartDivide(Job(opIn, a, b, word));
            }
          }
        case MulIn =>
          ppLow, ppHigh, phase := PartialLow(mulA, mulB), PartialHigh(mulA, mulB), MulMid;
        case MulMid =>
          product, phase := Product130(ppLow, ppHigh), MulOut;
        case MulOut =>
          if InIsa(job) { MulMatches(job); }
          result, phase := WordResult(wordOp, MulSelect(op, product)), Finished;
        case Iterating =>
          DivideStep();
        case Finished =>
          phase := Resting;
      }
    }
  }

  /** A whole operation, from reset to the cycle in which the result is out. */
  method Perform(op: MulOp, a: DWord, b: DWord, word: bool) returns (result: DWord, cycles: nat)
    requires InIsa(Job(op, a, b, word))
    ensures result == IsaResult(Job(op, a, b, word))
    ensures cycles <= if word then 33 else 65
  {
    var unit := new MulDivUnit();
    unit.Clock(true, op, a, b, word);
    cycles := 1;
    while unit.phase != Finished
      invariant unit.Valid() && unit.phase != Resting && unit.job == Job(op, a, b, word)
      invariant cycles + unit.Left() <= 1 + Steps(word)
      decreases unit.Left()
    {
      unit.Clock(false, op, a, b, word);
      cycles := cycles + 1;
    }
    result := unit.result;
  }
}
