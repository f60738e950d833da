/** Words, decoded instructions and the functional blocks that the single-cycle
    core (stage 0) and the five-stage pipeline (stage 2) are both built from. */
module Machine {

  datatype Option<+T> = None | Some(value: T)

  const TWO_32: nat := 0x1_0000_0000

  type Word = x: nat | x < 0x1_0000_0000 witness 0

  type Reg = x: nat | x < 32 witness 0

  /** Addition as the hardware does it: the carry out of bit 31 is dropped. */
  function Add32(a: Word, b: Word): Word { (a + b) % TWO_32 }

  /** `& ~32'd1` */
  function ClearBit0(a: Word): Word { a - a % 2 }

  datatype AluOp = Add | Sub | Sll | Slt | Sltu | Xor | Srl | Sra | Or | And | PassB

  datatype MulOp = Mul | Mulh | Mulhsu | Mulhu | Div | Divu | Rem | Remu

  datatype WbSel = WbAlu | WbMem | WbPc4 | WbCsr

  /** The fields of the decoder's output that stages 0 to 2 use. */
  datatype Decoded = Decoded(
    rs1: Reg, rs2: Reg, rd: Reg,
    rs1Used: bool, rs2Used: bool, rdWen: bool,
    aluOp: AluOp, imm: Word, useImm: bool, usePc: bool,
    isLoad: bool, isStore: bool, memFunct3: nat,
    isBranch: bool, branchFunct3: nat, isJal: bool, isJalr: bool,
    isCsr: bool, isEcall: bool, isEbreak: bool, isMret: bool,
    isMuldiv: bool, muldivOp: MulOp,
    wbSel: WbSel, illegal: bool)

  const DECODED_ZERO := Decoded(0, 0, 0, false, false, false, Add, 0, false, false,
                                false, false, 0, false, 0, false, false,
                                false, false, false, false, false, Mul, WbAlu, false)

  /** One data-bus request; `addr` is word aligned. */
  datatype BusReq = BusReq(we: bool, be: nat, addr: Word, wdata: Word)

  type Mem = map<Word, Word>

  datatype MdPhase = Idle | MulBusy1 | MulBusy2 | Compute | Done

  /** The registers of the multiply/divide unit. */
  datatype MdState = MdState(
    phase: MdPhase, result: Word,
    product: nat, mulA: Word, mulB: Word, mulOp: MulOp,
    dividend: Word, remainder: nat, quotient: Word, absB: Word, count: nat,
    divNeg: bool, remNeg: bool, isRem: bool)

  /** The combinational blocks and the multiply/divide unit, as parameters: the
      pipeline theorem holds for every choice that meets `Sound` below. */
  datatype Blocks = Blocks(
    decode: Word -> Decoded,
    alu: (AluOp, Word, Word) -> Word,
    cond: (nat, Word, Word) -> bool,
    muldiv: (MulOp, Word, Word) -> Word,
    byteEnable: (nat, Word) -> nat,
    storeLanes: (nat, Word) -> Word,
    extract: (nat, Word, Word) -> Word,
    merge: (Word, nat, Word) -> Word,
    mdStep: (MdState, bool, MulOp, Word, Word) -> MdState,
    mdRunning: (MdState, MulOp, Word, Word) -> bool,
    mdLeft: MdState -> nat)

  /** What surrounds a core: its blocks, the program (stores never change it)
      and what the CSR file drives, which no supported instruction observes. */
  datatype Env = Env(b: Blocks, imem: Word -> Word, trapVector: Word, mepc: Word, csrRdata: Word)

  predicate IsMemOp(d: Decoded) { d.isLoad || d.isStore }

  /** Legal and not SYSTEM. */
  predicate Supported(d: Decoded) {
    !d.illegal && !d.isEcall && !d.isEbreak && !d.isMret && !d.isCsr
  }

  /** What the decoder owes the pipeline about a supported instruction. */
  predicate DecodedSound(d: Decoded) {
    && (d.isLoad ==> d.rdWen && d.wbSel == WbMem && d.rs1Used && d.useImm
                     && !d.isStore && !d.isBranch && !d.isJal && !d.isJalr && !d.isMuldiv)
    && (d.isStore ==> !d.rdWen && d.rs1Used && d.rs2Used && d.useImm
                      && !d.isBranch && !d.isJal && !d.isJalr && !d.isMuldiv)
    && (d.isBranch ==> !d.rdWen && d.rs1Used && d.rs2Used && !d.isJal && !d.isJalr && !d.isMuldiv)
    && (d.isJalr ==> d.rs1Used && !d.isJal && !d.isMuldiv && d.wbSel == WbPc4)
    && (d.isJal ==> !d.isMuldiv && d.wbSel == WbPc4)
    && (d.isMuldiv ==> d.rs1Used && d.rs2Used && d.wbSel == WbAlu)
    && (d.wbSel == WbMem ==> d.isLoad)
    && (d.wbSel == WbPc4 ==> d.isJal || d.isJalr)
    && d.wbSel != WbCsr
    && (d.isLoad || d.isStore || (d.rdWen && d.wbSel == WbAlu && !d.isMuldiv) ==>
          (d.rs1Used || d.usePc || d.aluOp == PassB) && (d.rs2Used || d.useImm))
  }

  predicate DecodedWell(d: Decoded) {
    (Supported(d) ==> DecodedSound(d)) && (d.isJalr ==> !IsMemOp(d) && !d.isMuldiv)
  }

  predicate DecodesWell(b: Blocks, w: Word) { DecodedWell(b.decode(w)) }

  /** PassB does not look at its first operand. */
  predicate PassesB(b: Blocks, x: Word, x': Word, y: Word) { b.alu(PassB, x, y) == b.alu(PassB, x', y) }

  /** The zero word in an empty ID stage decodes to nothing that could stall. */
  ghost predicate DecoderSound(b: Blocks) {
    && (forall w: Word :: DecodesWell(b, w))
    && !b.decode(0).isJalr && !b.decode(0).rs1Used && !b.decode(0).rs2Used
    && (forall x: Word, x': Word, y: Word :: PassesB(b, x, x', y))
  }

  /** Bound on the cycles from the start of an M operation to its result. */
  const MD_LATENCY: nat := 40

  /** One cycle of the multiply/divide unit with nothing new asked of it, working
      on `op`, `x`, `y`: it gets closer to its end, and done it holds the ISA
      result for one cycle. */
  predicate RunsOn(b: Blocks, m: MdState, op: MulOp, x: Word, y: Word, op': MulOp, x': Word, y': Word) {
    var m' := b.mdStep(m, false, op', x', y');
    && (m.phase == Idle || m.phase == Done ==> m'.phase == Idle)
    && (m.phase != Idle && b.mdRunning(m, op, x, y) ==>
          && b.mdLeft(m) < MD_LATENCY
          && (m.phase == Done ==> m.result == b.muldiv(op, x, y))
          && (m.phase != Done ==>
                m'.phase != Idle && b.mdRunning(m', op, x, y) && b.mdLeft(m') < b.mdLeft(m)))
  }

  /** A request to an idle unit starts it. */
  predicate Starts(b: Blocks, m: MdState, op: MulOp, x: Word, y: Word) {
    var m' := b.mdStep(m, true, op, x, y);
    m.phase == Idle ==> m'.phase != Idle && b.mdRunning(m', op, x, y)
  }

  ghost predicate MulDivSound(b: Blocks) {
    && (forall m: MdState, op: MulOp, x: Word, y: Word, op': MulOp, x': Word, y': Word ::
          RunsOn(b, m, op, x, y, op', x', y'))
    && (forall m: MdState, op: MulOp, x: Word, y: Word :: Starts(b, m, op, x, y))
  }

  ghost predicate Sound(b: Blocks) {
    DecoderSound(b) && MulDivSound(b)
  }

  // ---- Data memory ----------------------------------------------------------

  function ReadMem(m: Mem, a: Word): Word { if a in m then m[a] else 0 }

  function WordAligned(a: Word): Word { a - a % 4 }

  function MakeRequest(b: Blocks, we: bool, funct3: nat, addr: Word, wdata: Word): BusReq {
    BusReq(we, b.byteEnable(funct3, addr), WordAligned(addr), b.storeLanes(funct3, wdata))
  }

  /** A byte-strobed word memory: its contents after a request, and the word it returns. */
  function Bus(b: Blocks, m: Mem, r: BusReq): (Mem, Word) {
    (if r.we then m[r.addr := b.merge(ReadMem(m, r.addr), r.be, r.wdata)] else m, ReadMem(m, r.addr))
  }

  // ---- Register file --------------------------------------------------------

  type Regs = r: seq<Word> | |r| == 32 witness seq(32, i => 0)

  /** x0 reads as zero. */
  function ReadReg(r: Regs, a: Reg): Word { if a == 0 then 0 else r[a] }

  /** x0 is never written. */
  function WriteReg(r: Regs, wen: bool, rd: Reg, v: Word): Regs {
    if wen && rd != 0 then r[rd := v] else r
  }
}
