/** The RV32IM blocks as the repository writes them: decoder, ALU, branch
    comparator, load/store lanes; and the proof that they are what the pipeline
    needs. */
module Rv32 {
  import opened Machine
  import opened Division
  import MulDiv32

  /** An `n`-bit field, sign-extended to 32 bits. */
  function SignExtend(n: nat, v: nat): Word { Pattern(TWO_32, Signed(Pow2(n), v)) }

  // ---- rtl/stage2/kronos_decode.sv ----------------------------------------------

  function ImmI(w: Word): Word { SignExtend(12, w / 0x10_0000) }

  function ImmS(w: Word): Word { SignExtend(12, w / 0x200_0000 * 32 + w / 0x80 % 32) }

  function ImmB(w: Word): Word {
    SignExtend(13, w / 0x8000_0000 * 4096 + w / 0x80 % 2 * 2048 + w / 0x200_0000 % 64 * 32 + w / 0x100 % 16 * 2)
  }

  function ImmJ(w: Word): Word {
    SignExtend(21, w / 0x8000_0000 * 0x10_0000 + w / 0x1000 % 256 * 4096
                   + w / 0x10_0000 % 2 * 2048 + w / 0x20_0000 % 1024 * 2)
  }

  function ImmU(w: Word): Word { w - w % 4096 }

  /** The ALU operation of a register-register instruction, if it is one. */
  function AluOpOf(funct7: nat, funct3: nat): Option<AluOp> {
    if funct7 == 0x20 then
      if funct3 == 0 then Some(Sub) else if funct3 == 5 then Some(Sra) else None
    else if funct7 != 0 then None
    else if funct3 == 0 then Some(Add) else if funct3 == 1 then Some(Sll)
    else if funct3 == 2 then Some(Slt) else if funct3 == 3 then Some(Sltu)
    else if funct3 == 4 then Some(Xor) else if funct3 == 5 then Some(Srl)
    else if funct3 == 6 then Some(Or) else Some(And)
  }

  function MulOpOf(funct3: nat): MulOp {
    if funct3 == 0 then Mul else if funct3 == 1 then Mulh else if funct3 == 2 then Mulhsu
    else if funct3 == 3 then Mulhu else if funct3 == 4 then Div else if funct3 == 5 then Divu
    else if funct3 == 6 then Rem else Remu
  }

  function DecodeOp(d: Decoded, funct7: nat, funct3: nat): Decoded {
    var d' := d.(rs1Used := true, rs2Used := true, rdWen := true, wbSel := WbAlu);
    if funct7 == 1 then d'.(isMuldiv := true, muldivOp := MulOpOf(funct3), aluOp := Add)
    else match AluOpOf(funct7, funct3)
      case Some(op) => d'.(aluOp := op)
      case None => d'.(illegal := true)
  }

  function DecodeOpImm(d: Decoded, w: Word, funct7: nat, funct3: nat): Decoded {
    var d' := d.(rs1Used := true, rdWen := true, useImm := true, wbSel := WbAlu, imm := ImmI(w));
    if funct3 == 1 then d'.(aluOp := Sll, imm := w / 0x10_0000 % 32, illegal := funct7 != 0)
    else if funct3 == 5 then
      var d'' := d'.(imm := w / 0x10_0000 % 32);
      if funct7 == 0 then d''.(aluOp := Srl)
      else if funct7 == 0x20 then d''.(aluOp := Sra)
      else d''.(illegal := true)
    else match AluOpOf(0, funct3)
      case Some(op) => d'.(aluOp := op)
      case None => d'.(illegal := true)
  }

  function DecodeSystem(d: Decoded, w: Word, funct3: nat): Decoded {
    if funct3 == 0 then
      if w / 0x10_0000 == 0 then d.(isEcall := true)
      else if w / 0x10_0000 == 1 then d.(isEbreak := true)
      else if w / 0x10_0000 == 0x302 then d.(isMret := true)
      else d.(illegal := true)
    else d.(isCsr := true, rdWen := true, rs1Used := funct3 < 4, wbSel := WbCsr)
  }

  /** The register fields, and nothing else set. */
  function Fields(w: Word): Decoded {
    DECODED_ZERO.(rs1 := w / 0x8000 % 32, rs2 := w / 0x10_0000 % 32, rd := w / 0x80 % 32)
  }

  function Decode(w: Word): Decoded {
    var funct3 := w / 0x1000 % 8;
    var funct7 := w / 0x200_0000;
    var d := Fields(w);
    match w % 128
    case 0x33 => DecodeOp(d, funct7, funct3)
    case 0x13 => DecodeOpImm(d, w, funct7, funct3)
    case 0x37 => d.(rdWen := true, useImm := true, aluOp := PassB, imm := ImmU(w), wbSel := WbAlu)
    case 0x17 => d.(rdWen := true, useImm := true, usePc := true, aluOp := Add, imm := ImmU(w), wbSel := WbAlu)
    case 0x6F => d.(rdWen := true, isJal := true, imm := ImmJ(w), wbSel := WbPc4)
    case 0x67 => d.(rs1Used := true, rdWen := true, isJalr := true, imm := ImmI(w), wbSel := WbPc4,
                    illegal := funct3 != 0)
    case 0x63 => d.(rs1Used := true, rs2Used := true, isBranch := true, branchFunct3 := funct3, imm := ImmB(w),
                    illegal := funct3 == 2 || funct3 == 3)
    case 0x03 => d.(rs1Used := true, rdWen := true, useImm := true, aluOp := Add, imm := ImmI(w),
                    isLoad := true, memFunct3 := funct3, wbSel := WbMem,
                    illegal := funct3 == 3 || funct3 == 6 || funct3 == 7)
    case 0x23 => d.(rs1Used := true, rs2Used := true, useImm := true, aluOp := Add, imm := ImmS(w),
                    isStore := true, memFunct3 := funct3, wbSel := WbAlu, illegal := funct3 > 2)
    case 0x73 => DecodeSystem(d, w, funct3)
    case _ => d.(illegal := true)
  }

  // ---- rtl/stage0/kronos_alu.sv ---------------------------------------------------

  function Alu(op: AluOp, a: Word, b: Word): Word {
    match op
    case Add => Add32(a, b)
    case Sub => Pattern(TWO_32, a - b)
    case Sll => a * Pow2(b % 32) % TWO_32
    case Slt => if Signed(TWO_32, a) < Signed(TWO_32, b) then 1 else 0
    case Sltu => if a < b then 1 else 0
    case Xor => ((a as bv32) ^ (b as bv32)) as Word
    case Srl => a / Pow2(b % 32) % TWO_32
    case Sra => Pattern(TWO_32, Signed(TWO_32, a) / Pow2(b % 32))
    case Or => ((a as bv32) | (b as bv32)) as Word
    case And => ((a as bv32) & (b as bv32)) as Word
    case PassB => b
  }

  /** The branch comparator, by funct3. */
  predicate Cond(funct3: nat, a: Word, b: Word) {
    match funct3
    case 0 => a == b
    case 1 => a != b
    case 4 => Signed(TWO_32, a) < Signed(TWO_32, b)
    case 5 => Signed(TWO_32, a) >= Signed(TWO_32, b)
    case 6 => a < b
    case 7 => a >= b
    case _ => false
  }

  function MulDiv(op: MulOp, a: Word, b: Word): Word { Meaning(TWO_32, op, a, b) }

  // ---- rtl/stage1/kronos_lsu.sv: the lanes ------------------------------------------

  function ByteEnable(funct3: nat, addr: Word): nat {
    if funct3 % 4 == 0 then Pow2(addr % 4) % 16
    else if funct3 % 4 == 1 then 3 * Pow2(addr % 4) % 16
    else 15
  }

  function StoreLanes(funct3: nat, w: Word): Word {
    if funct3 % 4 == 0 then w % 0x100 * 0x0101_0101
    else if funct3 % 4 == 1 then w % 0x1_0000 * 0x1_0001
    else w
  }

  function Extract(funct3: nat, addr: Word, raw: Word): Word {
    var shifted := raw / Pow2(addr % 4 * 8);
    match funct3
    case 0 => SignExtend(8, shifted % 0x100)
    case 1 => SignExtend(16, shifted % 0x1_0000)
    case 4 => shifted % 0x100
    case 5 => shifted % 0x1_0000
    case _ => raw
  }

  /** Byte `i` of a word. */
  function Byte(w: Word, i: nat): nat { w / Pow2(8 * i) % 0x100 }

  /** A byte-strobed write. */
  function Merge(prev: Word, be: nat, w: Word): Word {
    var b0 := Byte(if be % 2 == 1 then w else prev, 0);
    var b1 := Byte(if be / 2 % 2 == 1 then w else prev, 1);
    var b2 := Byte(if be / 4 % 2 == 1 then w else prev, 2);
    var b3 := Byte(if be / 8 % 2 == 1 then w else prev, 3);
    b0 + b1 * 0x100 + b2 * 0x1_0000 + b3 * 0x100_0000
  }

  // ---- The blocks together ----------------------------------------------------------

  const RV32IM: Blocks := Blocks(
    Decode, Alu, Cond, MulDiv, ByteEnable, StoreLanes, Extract, Merge,
    MulDiv32.Step, MulDiv32.Running, MulDiv32.Left)

  /** Before the opcode is looked at: register fields, and nothing set. */
  predicate Blank(d: Decoded) { d == DECODED_ZERO.(rs1 := d.rs1, rs2 := d.rs2, rd := d.rd) }

  lemma DecodeOpSound(d: Decoded, funct7: nat, funct3: nat)
    requires Blank(d)
    ensures DecodedWell(DecodeOp(d, funct7, funct3))
  {
    hide AluOpOf, MulOpOf;
  }

  lemma DecodeOpImmSound(d: Decoded, w: Word, funct7: nat, funct3: nat)
    requires Blank(d)
    ensures DecodedWell(DecodeOpImm(d, w, funct7, funct3))
  {
    hide AluOpOf, ImmI;
  }

  lemma DecodeArithmeticSound(w: Word)
    requires w % 128 in {0x33, 0x13, 0x37, 0x17}
    ensures DecodedWell(Decode(w))
  {
    hide ImmI, ImmU, DecodeOp, DecodeOpImm;
    DecodeOpSound(Fields(w), w / 0x200_0000, w / 0x1000 % 8);
    DecodeOpImmSound(Fields(w), w, w / 0x200_0000, w / 0x1000 % 8);
  }

  lemma DecodeJumpSound(w: Word)
    requires w % 128 in {0x6F, 0x67, 0x63}
    ensures DecodedWell(Decode(w))
  {
    hide ImmI, ImmB, ImmJ;
  }

  lemma DecodeOtherSound(w: Word)
    requires w % 128 !in {0x33, 0x13, 0x37, 0x17, 0x6F, 0x67, 0x63}
    ensures DecodedWell(Decode(w))
  {
    hide ImmI, ImmS;
  }

  lemma DecodeSound(w: Word)
    ensures DecodesWell(RV32IM, w)
  {
    hide Decode;
    DecodeIs(w);
    if w % 128 in {0x33, 0x13, 0x37, 0x17} { DecodeArithmeticSound(w); }
    else if w % 128 in {0x6F, 0x67, 0x63} { DecodeJumpSound(w); }
    else { DecodeOtherSound(w); }
  }

  lemma DecodeIs(w: Word)
    ensures RV32IM.decode(w) == Decode(w)
  {
    hide Decode;
  }

  lemma MulDivUnitSound()
    ensures MulDivSound(RV32IM)
  {
    hide Meaning, MulDiv32.Step, MulDiv32.Running, MulDiv32.Left, Decode, Alu;
    forall m: MdState, op: MulOp, x: Word, y: Word, op': MulOp, x': Word, y': Word
      ensures RunsOn(RV32IM, m, op, x, y, op', x', y')
    {
      UnitRunsOn(m, op, x, y, op', x', y');
    }
    forall m: MdState, op: MulOp, x: Word, y: Word ensures Starts(RV32IM, m, op, x, y) {
      if m.phase == Idle { MulDiv32.StartRuns(m, op, x, y); }
    }
  }

  lemma UnitRunsOn(m: MdState, op: MulOp, x: Word, y: Word, op': MulOp, x': Word, y': Word)
    ensures RunsOn(RV32IM, m, op, x, y, op', x', y')
  {
    hide Decode, Alu, Meaning, MulDiv32.Step, MulDiv32.Running, MulDiv32.Left;
    MulDiv32.StepRests(m, op', x', y');
    if m.phase != Idle && m.phase != Done && MulDiv32.Running(m, op, x, y) {
      MulDiv32.StepRuns(m, op, x, y, false, op', x', y');
    }
  }

  /** The decoder, the ALU and the multiplier keep the contracts of the pipeline theorem. */
  lemma BlocksSound()
    ensures Sound(RV32IM)
  {
    hide Decode, Alu, Meaning;
    forall w: Word ensures DecodesWell(RV32IM, w) { DecodeSound(w); }
    forall x: Word, x': Word, y: Word ensures PassesB(RV32IM, x, x', y) { PassBIgnoresA(x, x', y); }
    DecodeZero();
    MulDivUnitSound();
  }

  lemma PassBIgnoresA(x: Word, x': Word, y: Word)
    ensures PassesB(RV32IM, x, x', y)
  {
  }

  lemma DecodeZero()
    ensures var d := RV32IM.decode(0); !d.isJalr && !d.rs1Used && !d.rs2Used
  {
  }
}
