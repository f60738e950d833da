/** The RV32M multiply/divide unit of rtl/stage2/kronos_muldiv.sv. */
module MulDiv32 {
  import opened Machine
  import opened Division

  const INT_MIN: Word := 0x8000_0000
  const ALL_ONES: Word := 0xFFFF_FFFF
  const TWO_66: nat := 0x4_0000_0000_0000_0000

  predicate IsMul(op: MulOp) { op.Mul? || op.Mulh? || op.Mulhsu? || op.Mulhu? }

  predicate IsSignedDiv(op: MulOp) { op.Div? || op.Rem? }

  predicate IsRem(op: MulOp) { op.Rem? || op.Remu? }

  // ---- Multiplier -------------------------------------------------------------

  predicate MulSignedA(op: MulOp) { op.Mul? || op.Mulh? || op.Mulhsu? }

  predicate MulSignedB(op: MulOp) { op.Mul? || op.Mulh? }

  /** The 33-bit operand, as the integer it stands for. */
  function Extended(signed: bool, a: Word): int { if signed then Signed(TWO_32, a) else a }

  /** The 66-bit product register. */
  function Product(op: MulOp, a: Word, b: Word): nat {
    Pattern(TWO_66, Extended(MulSignedA(op), a) * Extended(MulSignedB(op), b))
  }

  function HalfSelect(op: MulOp, product: nat): Word {
    if op.Mul? then product % TWO_32 else product / TWO_32 % TWO_32
  }

  /** Neither half depends on the bits above them. */
  lemma HalfSelectMatches(op: MulOp, a: Word, b: Word)
    requires IsMul(op)
    ensures HalfSelect(op, Product(op, a, b)) == Meaning(TWO_32, op, a, b)
  {
    var i := Extended(MulSignedA(op), a) * Extended(MulSignedB(op), b);
    Halves(i);
  }

  lemma Halves(i: int)
    ensures Pattern(TWO_66, i) % TWO_32 == Pattern(TWO_32, i)
    ensures Pattern(TWO_66, i) / TWO_32 % TWO_32 == Pattern(TWO_32, i / TWO_32)
  {
    var x := Pattern(TWO_66, i);
    var hi, lo, k := x / TWO_32, x % TWO_32, i / TWO_66;
    DivModUnique(i, TWO_32, k * 0x4_0000_0000 + hi, lo);
    var hh, hl := hi / TWO_32, hi % TWO_32;
    DivModUnique(k * 0x4_0000_0000 + hi, TWO_32, k * 4 + hh, hl);
  }

  // ---- Divider ----------------------------------------------------------------

  function LoopOf(s: MdState): Loop { Loop(s.remainder, s.quotient, s.dividend) }

  function SignCorrected(s: MdState, l: Loop): Word
    requires l.remainder < TWO_32 && l.quotient < TWO_32
  {
    if s.isRem then if s.remNeg then Negate(TWO_32, l.remainder) else l.remainder
    else if s.divNeg then Negate(TWO_32, l.quotient) else l.quotient
  }

  function StartDivide(s: MdState, op: MulOp, a: Word, b: Word): MdState {
    if b == 0 then s.(phase := Done, result := if IsRem(op) then a else ALL_ONES)
    else if op.Div? && a == INT_MIN && b == ALL_ONES then s.(phase := Done, result := INT_MIN)
    else if op.Rem? && a == INT_MIN && b == ALL_ONES then s.(phase := Done, result := 0)
    else s.(phase := Compute,
            dividend := Magnitude(TWO_32, IsSignedDiv(op), a), remainder := 0, quotient := 0,
            absB := Magnitude(TWO_32, IsSignedDiv(op), b),
            divNeg := op.Div? && (a >= INT_MIN) != (b >= INT_MIN),
            remNeg := op.Rem? && a >= INT_MIN,
            isRem := IsRem(op), count := 32)
  }

  /** One clock edge. */
  function Step(s: MdState, req: bool, op: MulOp, a: Word, b: Word): MdState {
    match s.phase
    case Idle =>
      if !req then s
      else if IsMul(op) then s.(phase := MulBusy1, mulA := a, mulB := b, mulOp := op)
      else StartDivide(s, op, a, b)
    case MulBusy1 => s.(phase := MulBusy2, product := Product(s.mulOp, s.mulA, s.mulB))
    case MulBusy2 => s.(phase := Done, result := HalfSelect(s.mulOp, s.product))
    case Compute =>
      var l := LoopStep(TWO_32, s.absB, LoopOf(s));
      var s' := s.(remainder := l.remainder, quotient := l.quotient, dividend := l.dividend,
                   count := (s.count + 63) % 64);
      if s.count == 1 then s'.(phase := Done, result := SignCorrected(s, l)) else s'
    case Done => s.(phase := Idle)
  }

  // ---- What the unit computes ---------------------------------------------------

  predicate DividesFor(s: MdState, op: MulOp, a: Word, b: Word) {
    && !IsMul(op) && b != 0
    && s.absB == Magnitude(TWO_32, IsSignedDiv(op), b)
    && s.divNeg == (op.Div? && (a >= INT_MIN) != (b >= INT_MIN))
    && s.remNeg == (op.Rem? && a >= INT_MIN)
    && s.isRem == IsRem(op)
    && 1 <= s.count <= 32
    && Divided(TWO_32, Magnitude(TWO_32, IsSignedDiv(op), a), s.absB,
               Pow2(32 - s.count), Pow2(s.count), LoopOf(s))
  }

  /** The unit is working on `op`, `a`, `b`, or holds their result. */
  predicate Running(s: MdState, op: MulOp, a: Word, b: Word) {
    match s.phase
    case Idle => false
    case MulBusy1 => IsMul(op) && s.mulOp == op && s.mulA == a && s.mulB == b
    case MulBusy2 => IsMul(op) && s.mulOp == op && s.product == Product(op, a, b)
    case Compute => DividesFor(s, op, a, b)
    case Done => s.result == Meaning(TWO_32, op, a, b)
  }

  /** Cycles until the result is out. */
  function Left(s: MdState): nat {
    match s.phase
    case MulBusy1 => 2
    case MulBusy2 => 1
    case Compute => s.count
    case _ => 0
  }

  lemma StartRuns(s: MdState, op: MulOp, a: Word, b: Word)
    requires s.phase == Idle
    ensures Step(s, true, op, a, b).phase != Idle && Running(Step(s, true, op, a, b), op, a, b)
  {
    if !IsMul(op) {
      StartDivideRuns(s, op, a, b);
    }
  }

  /** The special cases are the ISA's; otherwise the loop starts on the magnitudes. */
  lemma StartDivideRuns(s: MdState, op: MulOp, a: Word, b: Word)
    requires !IsMul(op)
    ensures StartDivide(s, op, a, b).phase != Idle && Running(StartDivide(s, op, a, b), op, a, b)
  {
    hide Magnitude, Divided, Meaning, Pow2;
    if b == 0 || (IsSignedDiv(op) && a == INT_MIN && b == ALL_ONES) {
      SpecialResult(s, op, a, b);
    } else {
      MagnitudesFit(op, a, b);
      Pow2Of32();
      LoopStarts(TWO_32, Magnitude(TWO_32, IsSignedDiv(op), a), Magnitude(TWO_32, IsSignedDiv(op), b));
    }
  }

  lemma SpecialResult(s: MdState, op: MulOp, a: Word, b: Word)
    requires !IsMul(op) && (b == 0 || (IsSignedDiv(op) && a == INT_MIN && b == ALL_ONES))
    ensures var s' := StartDivide(s, op, a, b);
            s'.phase == Done && s'.result == Meaning(TWO_32, op, a, b)
  {
  }

  lemma MagnitudesFit(op: MulOp, a: Word, b: Word)
    requires b != 0
    ensures Magnitude(TWO_32, IsSignedDiv(op), a) < TWO_32 && 0 < Magnitude(TWO_32, IsSignedDiv(op), b) < TWO_32
  {
    MagnitudeIsAbs(TWO_32, a);
    MagnitudeIsAbs(TWO_32, b);
  }

  lemma Pow2Of32()
    ensures Pow2(32) == TWO_32 && Pow2(0) == 1
  {
    assert Pow2(4) == 16;
    Pow2Split(4, 4);
    Pow2Split(8, 8);
    Pow2Split(16, 16);
  }

  /** One more bit of the quotient. */
  lemma ComputeStep(s: MdState, op: MulOp, a: Word, b: Word)
    requires s.phase == Compute && DividesFor(s, op, a, b)
    ensures Divided(TWO_32, Magnitude(TWO_32, IsSignedDiv(op), a), s.absB,
                    Pow2(32 - s.count + 1), Pow2(s.count - 1), LoopStep(TWO_32, s.absB, LoopOf(s)))
  {
    hide LoopStep, Divided, Magnitude;
    StepDivides(TWO_32, Magnitude(TWO_32, IsSignedDiv(op), a), s.absB,
                Pow2(32 - s.count), Pow2(s.count - 1), LoopOf(s));
  }

  lemma ComputeRuns(s: MdState, op: MulOp, a: Word, b: Word)
    requires s.phase == Compute && DividesFor(s, op, a, b)
    ensures var s' := Step(s, false, op, a, b);
            Running(s', op, a, b) && Left(s') < Left(s)
  {
    hide LoopStep, Magnitude, Pow2, Divided, Meaning;
    ComputeStep(s, op, a, b);
    if s.count == 1 {
      var l := LoopStep(TWO_32, s.absB, LoopOf(s));
      ComputeEnds(s, op, a, b, l);
    }
  }

  lemma ComputeEnds(s: MdState, op: MulOp, a: Word, b: Word, l: Loop)
    requires DividesFor(s, op, a, b) && l == LoopStep(TWO_32, s.absB, LoopOf(s))
    requires Divided(TWO_32, Magnitude(TWO_32, IsSignedDiv(op), a), s.absB, Pow2(32), Pow2(0), l)
    ensures SignCorrected(s, l) == Meaning(TWO_32, op, a, b)
  {
    hide Meaning, Magnitude, LoopStep;
    FullyDivided(TWO_32, Magnitude(TWO_32, IsSignedDiv(op), a), s.absB, Pow2(32), 1, l);
    ResultMatches(s, op, a, b, l);
  }

  /** Sign correction turns the quotient and remainder of the magnitudes into the ISA's. */
  lemma ResultMatches(s: MdState, op: MulOp, a: Word, b: Word, l: Loop)
    requires DividesFor(s, op, a, b)
    requires var d := Magnitude(TWO_32, IsSignedDiv(op), a);
             l.quotient == d / s.absB && l.remainder == d % s.absB
    requires l.remainder < TWO_32 && l.quotient < TWO_32
    ensures SignCorrected(s, l) == Meaning(TWO_32, op, a, b)
  {
    MagnitudeIsAbs(TWO_32, a);
    MagnitudeIsAbs(TWO_32, b);
    SignedQuotient(TWO_32, a, b);
    SignedRemainder(TWO_32, a, b);
    DivModUnique(l.quotient, TWO_32, 0, l.quotient);
    DivModUnique(l.remainder, TWO_32, 0, l.remainder);
  }

  /** From any running state, whatever is on the inputs, the next edge brings the
      result closer and does not change whose result it is. */
  lemma StepRuns(s: MdState, op: MulOp, a: Word, b: Word, req: bool, op': MulOp, a': Word, b': Word)
    requires s.phase != Idle && s.phase != Done && Running(s, op, a, b)
    ensures var s' := Step(s, req, op', a', b');
            s'.phase != Idle && Running(s', op, a, b) && Left(s') < Left(s)
  {
    if s.phase == Compute {
      ComputeRuns(s, op, a, b);
    } else {
      HalfSelectMatches(op, a, b);
    }
  }

  /** Done, the unit holds the ISA result; idle or done it falls idle. */
  lemma StepRests(s: MdState, op': MulOp, a': Word, b': Word)
    ensures s.phase == Idle || s.phase == Done ==> Step(s, false, op', a', b').phase == Idle
    ensures forall op: MulOp, a: Word, b: Word :: Running(s, op, a, b) ==>
              Left(s) < MD_LATENCY && (s.phase == Done ==> s.result == Meaning(TWO_32, op, a, b))
  {
  }

  // ---- The clocked unit -----------------------------------------------------------

  class Unit {
    var phase: MdPhase
    var result: Word
    var product: nat
    var mulA: Word
    var mulB: Word
    var mulOp: MulOp
    var dividend: Word
    var remainder: nat
    var quotient: Word
    var absB: Word
    var count: nat
    var divNeg: bool
    var remNeg: bool
    var isRem: bool

    function State(): MdState
      reads this
    {
      MdState(phase, result, product, mulA, mulB, mulOp, dividend, remainder, quotient, absB, count,
              divNeg, remNeg, isRem)
    }

    constructor ()
      ensures phase == Idle
    {
      phase, result, product, mulA, mulB, mulOp := Idle, 0, 0, 0, 0, Mul;
      dividend, remainder, quotient, absB, count := 0, 0, 0, 0, 0;
      divNeg, remNeg, isRem := false, false, false;
    }

    method Finish(r: Word)
      modifies `phase, `result
      ensures State() == old(State()).(phase := Done, result := r)
    {
      phase, result := Done, r;
    }

    /** The loop's registers get the magnitudes; `zero` clears the rest. */
    method Begin(x: Word, y: Word, zero: Word, bits: nat, negQuotient: bool, negRemainder: bool, rem: bool)
      modifies this
      ensures State() == old(State()).(phase := Compute, dividend := x, remainder := zero, quotient := zero, absB := y,
                                       divNeg := negQuotient, remNeg := negRemainder, isRem := rem, count := bits)
    {
      phase, dividend, remainder, quotient, absB, count := Compute, x, zero, zero, y, bits;
      divNeg, remNeg, isRem := negQuotient, negRemainder, rem;
    }

    method StartEdge(op: MulOp, a: Word, b: Word)
      requires !IsMul(op)
      modifies this
      ensures State() == StartDivide(old(State()), op, a, b)
    {
      hide Magnitude;
      if b == 0 {
        Finish(if IsRem(op) then a else ALL_ONES);
      } else if op.Div? && a == INT_MIN && b == ALL_ONES {
        Finish(INT_MIN);
      } else if op.Rem? && a == INT_MIN && b == ALL_ONES {
        Finish(0);
      } else {
        Begin(Magnitude(TWO_32, IsSignedDiv(op), a), Magnitude(TWO_32, IsSignedDiv(op), b), 0, 32,
              op.Div? && (a >= INT_MIN) != (b >= INT_MIN), op.Rem? && a >= INT_MIN, IsRem(op));
      }
    }

    method ComputeEdge()
      requires phase == Compute
      modifies this
      ensures forall req, op, a, b :: State() == Step(old(State()), req, op, a, b)
    {
      hide LoopStep;
      var l := LoopStep(TWO_32, absB, Loop(remainder, quotient, dividend));
      remainder, quotient, dividend := l.remainder, l.quotient, l.dividend;
      if count == 1 {
        result := if isRem then if remNeg then Negate(TWO_32, l.remainder) else l.remainder
                  else if divNeg then Negate(TWO_32, l.quotient) else l.quotient;
        phase := Done;
      }
      count := (count + 63) % 64;
    }

    method Clock(req: bool, op: MulOp, a: Word, b: Word)
      modifies this
      ensures State() == Step(old(State()), req, op, a, b)
    {
      hide StartDivide, Product, HalfSelect, LoopStep;
      match phase {
        case Idle =>
          if req {
            if IsMul(op) {
              mulA, mulB, mulOp, phase := a, b, op, MulBusy1;
            } else {
              StartEdge(op, a, b);
            }
          }
        case MulBusy1 => product, phase := Product(mulOp, mulA, mulB), MulBusy2;
        case MulBusy2 => result, phase := HalfSelect(mulOp, product), Done;
        case Compute => ComputeEdge();
        case Done => phase := Idle;
      }
    }

    /** From a request to an idle unit to its valid pulse, whatever comes in
        meanwhile: the ISA result, in at most 33 cycles. */
    method Perform(op: MulOp, a: Word, b: Word, noise: seq<(bool, MulOp, Word, Word)>) returns (r: Word, cycles: nat)
      requires phase == Idle && |noise| >= 33
      modifies this
      ensures r == Meaning(TWO_32, op, a, b) && phase == Done && cycles <= 33
    {
      hide Meaning, Step, Running, Left;
      StartRuns(State(), op, a, b);
      Clock(true, op, a, b);
      cycles := 1;
      AtMost32(State(), op, a, b);
      while phase != Done
        invariant phase != Idle && Running(State(), op, a, b) && cycles + Left(State()) <= 33
        decreases Left(State())
      {
        var (req', op', a', b') := noise[cycles - 1];
        StepRuns(State(), op, a, b, req', op', a', b');
        Clock(req', op', a', b');
        cycles := cycles + 1;
      }
      r := result;
      DoneHolds(State(), op, a, b);
    }
  }

  lemma AtMost32(s: MdState, op: MulOp, a: Word, b: Word)
    requires Running(s, op, a, b)
    ensures Left(s) <= 32
  {}

  lemma DoneHolds(s: MdState, op: MulOp, a: Word, b: Word)
    requires Running(s, op, a, b) && s.phase == Done
    ensures s.result == Meaning(TWO_32, op, a, b)
  {}
}
