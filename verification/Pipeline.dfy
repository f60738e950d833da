/** The stage-2 core: one clock edge as a function of the registers and the
    input pins, following the blocks of rtl/stage2/kronos_top.sv. */
module Pipeline {
  import opened Machine

  datatype FwdSel = FwdNone | FwdExMem | FwdMemWb

  datatype IfId = IfId(pc: Word, instr: Word, valid: bool)

  datatype IdEx = IdEx(pc: Word, dec: Decoded, rs1Data: Word, rs2Data: Word, valid: bool,
                       sel1: FwdSel, sel2: FwdSel)

  datatype ExMem = ExMem(pc: Word, dec: Decoded, alu: Word, rs2Data: Word, csr: Word, valid: bool)

  datatype MemWb = MemWb(dec: Decoded, alu: Word, lsu: Word, csr: Word, pc4: Word, valid: bool)

  const IF_ID_ZERO := IfId(0, 0, false)
  const ID_EX_ZERO := IdEx(0, DECODED_ZERO, 0, 0, false, FwdNone, FwdNone)
  const EX_MEM_ZERO := ExMem(0, DECODED_ZERO, 0, 0, 0, false)
  const MEM_WB_ZERO := MemWb(DECODED_ZERO, 0, 0, 0, 0, false)

  /** Every register of the core, the load/store unit's and the fetch throttle's included. */
  datatype Core = Core(
    pc: Word, ifId: IfId, idEx: IdEx, exMem: ExMem, memWb: MemWb, regs: Regs,
    fetchOutstanding: bool, lsuWait: bool, memDone: bool, latch: Word, md: MdState)

  /** The input pins of one cycle. */
  datatype Pins = Pins(iGnt: bool, iRvalid: bool, iRdata: Word, dGnt: bool, dRvalid: bool, dRdata: Word)

  // ---- WB -------------------------------------------------------------------

  function WbResult(w: MemWb): Word {
    match w.dec.wbSel
    case WbAlu => w.alu
    case WbMem => w.lsu
    case WbPc4 => w.pc4
    case WbCsr => w.csr
  }

  function WbWriting(w: MemWb): bool { w.valid && w.dec.rdWen && w.dec.rd != 0 }

  // ---- ID -------------------------------------------------------------------

  function IdDec(e: Env, c: Core): Decoded { e.b.decode(c.ifId.instr) }

  /** The register read in ID, through the write-back bypass. */
  function ReadId(c: Core, r: Reg): Word {
    if WbWriting(c.memWb) && c.memWb.dec.rd == r then WbResult(c.memWb) else ReadReg(c.regs, r)
  }

  /** kronos_forward: the select stored with the consumer entering ID/EX. */
  function ForwardSel(c: Core, r: Reg, used: bool): FwdSel {
    if c.idEx.dec.rdWen && c.idEx.valid && !c.idEx.dec.isLoad && c.idEx.dec.rd != 0
       && used && r == c.idEx.dec.rd then FwdExMem
    else if c.exMem.dec.rdWen && c.exMem.valid && c.exMem.dec.rd != 0
            && used && r == c.exMem.dec.rd then FwdMemWb
    else FwdNone
  }

  // ---- EX -------------------------------------------------------------------

  function Forwarded(c: Core, sel: FwdSel, data: Word): Word {
    match sel
    case FwdNone => data
    case FwdExMem => c.exMem.alu
    case FwdMemWb => WbResult(c.memWb)
  }

  function Fwd1(c: Core): Word { Forwarded(c, c.idEx.sel1, c.idEx.rs1Data) }

  function Fwd2(c: Core): Word { Forwarded(c, c.idEx.sel2, c.idEx.rs2Data) }

  function ExResult(e: Env, c: Core): Word {
    var d := c.idEx.dec;
    if d.isMuldiv then c.md.result
    else e.b.alu(d.aluOp, if d.usePc then c.idEx.pc else Fwd1(c), if d.useImm then d.imm else Fwd2(c))
  }

  function BranchTaken(e: Env, c: Core): bool {
    c.idEx.valid && c.idEx.dec.isBranch && e.b.cond(c.idEx.dec.branchFunct3, Fwd1(c), Fwd2(c))
  }

  function ExTarget(e: Env, c: Core): Word {
    var d := c.idEx.dec;
    if c.idEx.valid && (d.isEcall || d.isEbreak || d.illegal) then e.trapVector
    else if c.idEx.valid && d.isMret then e.mepc
    else if c.idEx.valid && d.isJalr then ClearBit0(Add32(Fwd1(c), d.imm))
    else if c.idEx.valid && d.isJal then Add32(c.idEx.pc, d.imm)
    else if BranchTaken(e, c) then Add32(c.idEx.pc, d.imm)
    else Add32(c.idEx.pc, 4)
  }

  function ExRedirect(e: Env, c: Core): bool {
    var d := c.idEx.dec;
    c.idEx.valid && (d.isJal || d.isJalr || BranchTaken(e, c)
                     || d.isEcall || d.isEbreak || d.illegal || d.isMret)
  }

  // ---- MEM: the two-state load/store unit -------------------------------------

  function LsuReq(c: Core): bool {
    c.exMem.valid && IsMemOp(c.exMem.dec) && !c.memDone
  }

  function DataReq(c: Core): bool { LsuReq(c) && !c.lsuWait }

  function DataBus(e: Env, c: Core): BusReq {
    MakeRequest(e.b, c.exMem.dec.isStore, c.exMem.dec.memFunct3, c.exMem.alu, c.exMem.rs2Data)
  }

  function LsuValid(c: Core, p: Pins): bool {
    (!c.lsuWait && LsuReq(c) && p.dGnt && p.dRvalid) || (c.lsuWait && p.dRvalid)
  }

  function LsuRdata(e: Env, c: Core, p: Pins): Word {
    e.b.extract(c.exMem.dec.memFunct3, c.exMem.alu, p.dRdata)
  }

  function MemStall(c: Core, p: Pins): bool { LsuReq(c) && !LsuValid(c, p) }

  // ---- Stalls ---------------------------------------------------------------

  function MuldivStall(c: Core): bool {
    c.idEx.valid && c.idEx.dec.isMuldiv && c.md.phase != Done
  }

  /** combined_stall: freezes every pipeline register. */
  function Frozen(c: Core, p: Pins): bool {
    MemStall(c, p) || MuldivStall(c) || !p.iRvalid
  }

  function LoadUse(e: Env, c: Core): bool {
    var d := IdDec(e, c);
    c.idEx.valid && c.idEx.dec.isLoad && c.idEx.dec.rd != 0 &&
    ((d.rs1Used && d.rs1 == c.idEx.dec.rd) || (d.rs2Used && d.rs2 == c.idEx.dec.rd))
  }

  function JalrFwdStall(e: Env, c: Core): bool {
    var d := IdDec(e, c);
    d.isJalr && c.exMem.valid && c.exMem.dec.rdWen && c.exMem.dec.rd != 0 && d.rs1 == c.exMem.dec.rd
  }

  datatype Control = Control(
    pcEn: bool, ifIdEn: bool, idExEn: bool, exMemEn: bool, memWbEn: bool,
    ifIdFlush: bool, idExFlush: bool)

  /** kronos_hazard's priority chain, with the inputs stage 2 ties to zero left out. */
  function Hazard(memStall: bool, loadUse: bool, jalrFwdStall: bool, redirect: bool): Control {
    if memStall then Control(false, false, false, false, false, false, false)
    else if loadUse || jalrFwdStall then Control(false, false, false, true, true, false, true)
    else if redirect then Control(true, true, true, true, true, true, true)
    else Control(true, true, true, true, true, false, false)
  }

  function Controls(e: Env, c: Core, p: Pins): Control {
    Hazard(Frozen(c, p), LoadUse(e, c), JalrFwdStall(e, c), ExRedirect(e, c))
  }

  // ---- The clock edge -------------------------------------------------------

  function NextIfId(c: Core, p: Pins, k: Control): IfId {
    if k.ifIdFlush then IF_ID_ZERO
    else if k.ifIdEn then IfId(c.pc, p.iRdata, p.iRvalid)
    else c.ifId
  }

  function NextIdEx(e: Env, c: Core, k: Control): IdEx {
    var d := IdDec(e, c);
    if k.idExFlush then ID_EX_ZERO
    else if k.idExEn then
      IdEx(c.ifId.pc, d, ReadId(c, d.rs1), ReadId(c, d.rs2), c.ifId.valid,
           ForwardSel(c, d.rs1, d.rs1Used), ForwardSel(c, d.rs2, d.rs2Used))
    else c.idEx
  }

  function NextExMem(e: Env, c: Core, k: Control): ExMem {
    if k.exMemEn then ExMem(c.idEx.pc, c.idEx.dec, ExResult(e, c), Fwd2(c), e.csrRdata, c.idEx.valid)
    else c.exMem
  }

  function NextMemWb(e: Env, c: Core, p: Pins, k: Control): MemWb {
    if k.memWbEn then
      MemWb(c.exMem.dec, c.exMem.alu, if LsuValid(c, p) then LsuRdata(e, c, p) else c.latch,
            c.exMem.csr, Add32(c.exMem.pc, 4), c.exMem.valid)
    else c.memWb
  }

  function NextMd(e: Env, c: Core, p: Pins): MdState {
    e.b.mdStep(c.md, c.idEx.valid && c.idEx.dec.isMuldiv && c.md.phase == Idle && !MemStall(c, p),
               c.idEx.dec.muldivOp, Fwd1(c), Fwd2(c))
  }

  function NextCore(e: Env, c: Core, p: Pins): Core {
    var k := Controls(e, c, p);
    Core(
      if k.pcEn then (if ExRedirect(e, c) then ExTarget(e, c) else Add32(c.pc, 4)) else c.pc,
      NextIfId(c, p, k),
      NextIdEx(e, c, k),
      NextExMem(e, c, k),
      NextMemWb(e, c, p, k),
      WriteReg(c.regs, c.memWb.valid && c.memWb.dec.rdWen, c.memWb.dec.rd, WbResult(c.memWb)),
      if p.iGnt && !p.iRvalid then true else if p.iRvalid then false else c.fetchOutstanding,
      if c.lsuWait then !p.dRvalid else LsuReq(c) && p.dGnt && !p.dRvalid,
      !k.memWbEn && (LsuValid(c, p) || c.memDone),
      if LsuValid(c, p) then LsuRdata(e, c, p) else c.latch,
      NextMd(e, c, p))
  }
}
