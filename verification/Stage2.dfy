/** The theorem for the repository's own blocks, and a program that shows that its
    condition is needed. */
module Stage2 {
  import opened Machine
  import opened Golden
  import opened System
  import opened Exactness
  import opened Exact
  import opened Liveness
  import opened Rv32
  import Division

  /** The stage-2 core running `imem`, with what its CSR file would drive. */
  function Machine32(imem: Word -> Word, trapVector: Word, mepc: Word, csrRdata: Word): Env {
    Env(RV32IM, imem, trapVector, mepc, csrRdata)
  }

  /** For every legal RV32IM program without SYSTEM instructions: the pipeline
      retires what the single-cycle core retires, under every timing of the two
      memories, if and only if the program never runs into the hazard. */
  lemma Stage2Exact(imem: Word -> Word, trapVector: Word, mepc: Word, csrRdata: Word, g0: Arch, s0: Sys)
    requires LegalRun(Machine32(imem, trapVector, mepc, csrRdata), g0) && Reset(s0, g0)
    ensures var e := Machine32(imem, trapVector, mepc, csrRdata);
            (forall sched: seq<Choice> :: RetiresGolden(e, g0, Run(e, s0, sched))) <==> HazardFree(e, g0)
  {
    hide HazardFree, Run, LegalRun, Reset, Sound;
    BlocksSound();
    RetiresGoldenIffHazardFree(Machine32(imem, trapVector, mepc, csrRdata), g0, s0);
  }

  /** And for a program that never runs into it: memories of any latency make every
      instruction retire, as long as they answer, if and only if none is an M one. */
  lemma Stage2Live(imem: Word -> Word, trapVector: Word, mepc: Word, csrRdata: Word, g0: Arch, s0: Sys)
    requires var e := Machine32(imem, trapVector, mepc, csrRdata);
             LegalRun(e, g0) && Reset(s0, g0) && HazardFree(e, g0)
    ensures var e := Machine32(imem, trapVector, mepc, csrRdata);
            (forall schedule: nat -> Choice :: AnswersSuffice(e, s0, schedule)) <==> MulFree(e, g0)
  {
    hide HazardFree, LegalRun, Reset, Sound, AnswersSuffice, MulFree;
    BlocksSound();
    AnswersSufficeIffMulFree(Machine32(imem, trapVector, mepc, csrRdata), g0, s0);
  }

  // ---- The condition is needed ----------------------------------------------------

  /** addi x1, x0, 16; beq x0, x0, .+8; jalr x0, 0(x1); and at the branch target
      a jump to itself. */
  function HazardProgram(a: Word): Word {
    if a == 0 then 0x0100_0093
    else if a == 4 then 0x0000_0463
    else if a == 8 then 0x0000_8067
    else 0x0000_006F
  }

  const HAZARD_ENV: Env := Machine32(HazardProgram, 0, 0, 0)

  const HAZARD_START: Arch := Arch(0, seq(32, i => 0), map[])

  const ADDI: Decoded := DECODED_ZERO.(rs2 := 16, rd := 1, rs1Used := true, rdWen := true,
                                       useImm := true, aluOp := Add, imm := 16)
  const BEQ: Decoded := DECODED_ZERO.(rd := 8, rs1Used := true, rs2Used := true, isBranch := true, imm := 8)
  const JALR: Decoded := DECODED_ZERO.(rs1 := 1, rs1Used := true, rdWen := true, isJalr := true, wbSel := WbPc4)
  const JAL: Decoded := DECODED_ZERO.(rdWen := true, isJal := true, wbSel := WbPc4)

  lemma Immediates()
    ensures ImmI(0x0100_0093) == 16 && ImmB(0x0000_0463) == 8 && ImmI(0x0000_8067) == 0 && ImmJ(0x0000_006F) == 0
  {
    hide Division.Pow2;
    FieldPowers();
  }

  lemma FieldPowers()
    ensures Division.Pow2(12) == 0x1000 && Division.Pow2(13) == 0x2000 && Division.Pow2(21) == 0x20_0000
  {
    assert Division.Pow2(4) == 16 && Division.Pow2(1) == 2;
    Division.Pow2Split(4, 4);
    Division.Pow2Split(8, 4);
    Division.Pow2Split(12, 1);
    Division.Pow2Split(13, 8);
  }

  lemma DecodesAddi()
    ensures Decode(0x0100_0093) == ADDI
  {
    hide ImmI, ImmS, ImmB, ImmJ, ImmU, DecodeOp, DecodeSystem;
    Immediates();
  }

  lemma DecodesBranch()
    ensures Decode(0x0000_0463) == BEQ
  {
    hide ImmI, ImmS, ImmB, ImmJ, ImmU, DecodeOp, DecodeOpImm, DecodeSystem;
    Immediates();
  }

  lemma DecodesJumps()
    ensures Decode(0x0000_8067) == JALR && Decode(0x0000_006F) == JAL
  {
    hide ImmI, ImmS, ImmB, ImmJ, ImmU, DecodeOp, DecodeOpImm, DecodeSystem;
    Immediates();
  }

  lemma Decodes()
    ensures Decode(0x0100_0093) == ADDI && Decode(0x0000_0463) == BEQ
    ensures Decode(0x0000_8067) == JALR && Decode(0x0000_006F) == JAL
  {
    hide Decode;
    DecodesAddi();
    DecodesBranch();
    DecodesJumps();
  }

  lemma HazardPcs(n: nat)
    ensures At(HAZARD_ENV, HAZARD_START, n).pc == if n == 0 then 0 else if n == 1 then 4 else 12
  {
    hide Decode;
    Decodes();
    if n > 0 { HazardPcs(n - 1); }
  }

  lemma HazardLegal()
    ensures LegalRun(HAZARD_ENV, HAZARD_START)
  {
    hide Decode, At;
    Decodes();
    forall n: nat ensures LegalAt(HAZARD_ENV, HAZARD_START, n) { HazardPcs(n); }
  }

  /** The program is legal and meets the hazard at its second instruction, so for
      some timing of the memories the pipeline retires the JALR it should have
      skipped. */
  lemma HazardProgramFails(s0: Sys) returns (sched: seq<Choice>)
    requires Reset(s0, HAZARD_START)
    ensures LegalRun(HAZARD_ENV, HAZARD_START) && HazardAt(HAZARD_ENV, HAZARD_START, 1)
    ensures !RetiresGolden(HAZARD_ENV, HAZARD_START, Run(HAZARD_ENV, s0, sched))
  {
    HazardLegal();
    HazardMet();
    hide Run, HazardAt, LegalRun, Reset, Sound, RetiresGolden;
    BlocksSound();
    sched := HazardDiverges(HAZARD_ENV, HAZARD_START, s0, 1);
  }

  lemma HazardMet()
    ensures HazardAt(HAZARD_ENV, HAZARD_START, 1)
  {
    hide Decode;
    Decodes();
    HazardPcs(1);
  }

  // ---- The hypotheses can be met ------------------------------------------------------

  /** A jump to itself, everywhere. */
  const LOOP_ENV: Env := Machine32(a => 0x0000_006F, 0, 0, 0)

  lemma LoopProgramFits(g0: Arch)
    ensures LegalRun(LOOP_ENV, g0) && HazardFree(LOOP_ENV, g0) && MulFree(LOOP_ENV, g0)
  {
    hide Decode, At, Adjacent;
    Decodes();
    forall n: nat ensures LegalAt(LOOP_ENV, g0, n) && PlainAt(LOOP_ENV, g0, n) && !HazardAt(LOOP_ENV, g0, n) {}
  }
}
