/** The single-cycle core of stage 0, one instruction per step: the golden model. */
module Golden {
  import opened Machine

  /** The architectural state. */
  datatype Arch = Arch(pc: Word, regs: Regs, mem: Mem)

  /** One retired instruction as an observer sees it. */
  datatype Retire = Retire(pc4: Word, wen: bool, rd: Reg, value: Word)

  /** One data-bus transaction as an observer sees it. */
  datatype Access = Load(be: nat, addr: Word) | Store(be: nat, addr: Word, wdata: Word)

  function MakeRetire(pc4: Word, d: Decoded, value: Word): Retire {
    if d.rdWen && d.rd != 0 then Retire(pc4, true, d.rd, value) else Retire(pc4, false, 0, 0)
  }

  function MakeAccess(r: BusReq): Access {
    if r.we then Store(r.be, r.addr, r.wdata) else Load(r.be, r.addr)
  }

  function Instr(e: Env, g: Arch): Decoded { e.b.decode(e.imem(g.pc)) }

  function Rs1(e: Env, g: Arch): Word { ReadReg(g.regs, Instr(e, g).rs1) }

  function Rs2(e: Env, g: Arch): Word { ReadReg(g.regs, Instr(e, g).rs2) }

  /** The execute result: the ALU's, or the ISA meaning of an M instruction. */
  function Result(e: Env, g: Arch): Word {
    var d := Instr(e, g);
    if d.isMuldiv then e.b.muldiv(d.muldivOp, Rs1(e, g), Rs2(e, g))
    else e.b.alu(d.aluOp, if d.usePc then g.pc else Rs1(e, g), if d.useImm then d.imm else Rs2(e, g))
  }

  function Request(e: Env, g: Arch): BusReq {
    var d := Instr(e, g);
    MakeRequest(e.b, d.isStore, d.memFunct3, Result(e, g), Rs2(e, g))
  }

  /** Memory after the instruction, and the raw word the bus returned. */
  function BusEffect(e: Env, g: Arch): (Mem, Word) {
    if IsMemOp(Instr(e, g)) then Bus(e.b, g.mem, Request(e, g)) else (g.mem, 0)
  }

  function Loaded(e: Env, g: Arch): Word {
    e.b.extract(Instr(e, g).memFunct3, Result(e, g), BusEffect(e, g).1)
  }

  function WriteBack(e: Env, g: Arch): Word {
    match Instr(e, g).wbSel
    case WbAlu => Result(e, g)
    case WbMem => Loaded(e, g)
    case WbPc4 => Add32(g.pc, 4)
    case WbCsr => e.csrRdata
  }

  function Taken(e: Env, g: Arch): bool {
    e.b.cond(Instr(e, g).branchFunct3, Rs1(e, g), Rs2(e, g))
  }

  function NextPc(e: Env, g: Arch): Word {
    var d := Instr(e, g);
    if d.isEcall || d.isEbreak || d.illegal then e.trapVector
    else if d.isMret then e.mepc
    else if d.isJal then Add32(g.pc, d.imm)
    else if d.isJalr then ClearBit0(Add32(Rs1(e, g), d.imm))
    else if d.isBranch then if Taken(e, g) then Add32(g.pc, d.imm) else Add32(g.pc, 4)
    else Add32(g.pc, 4)
  }

  function Next(e: Env, g: Arch): Arch {
    var d := Instr(e, g);
    Arch(NextPc(e, g), WriteReg(g.regs, d.rdWen && !d.illegal, d.rd, WriteBack(e, g)), BusEffect(e, g).0)
  }

  /** The state before instruction `n` of the run from `g0`. */
  function At(e: Env, g0: Arch, n: nat): Arch {
    if n == 0 then g0 else Next(e, At(e, g0, n - 1))
  }

  function RetireOf(e: Env, g: Arch): Retire {
    MakeRetire(Add32(g.pc, 4), Instr(e, g), WriteBack(e, g))
  }

  /** What the first `n` instructions retire, in order. */
  function Retired(e: Env, g0: Arch, n: nat): (t: seq<Retire>)
    ensures |t| == n
  {
    if n == 0 then [] else Retired(e, g0, n - 1) + [RetireOf(e, At(e, g0, n - 1))]
  }

  function AccessOf(e: Env, g: Arch): seq<Access> {
    if IsMemOp(Instr(e, g)) then [MakeAccess(Request(e, g))] else []
  }

  /** The data-bus transactions of the first `n` instructions, in order. */
  function Accesses(e: Env, g0: Arch, n: nat): seq<Access> {
    if n == 0 then [] else Accesses(e, g0, n - 1) + AccessOf(e, At(e, g0, n - 1))
  }

  predicate LegalAt(e: Env, g0: Arch, n: nat) { Supported(Instr(e, At(e, g0, n))) }

  /** Every instruction of the golden run is legal and not SYSTEM. */
  ghost predicate LegalRun(e: Env, g0: Arch) { forall n: nat :: LegalAt(e, g0, n) }
}
