/** The pipeline refines the golden model: the invariant that ties its registers
    to golden states, and why a clock edge that loses no redirect keeps it. */
module Refinement {
  import opened Machine
  import opened Golden
  import opened Pipeline
  import opened System

  // ---- The invariant --------------------------------------------------------
  // `g` is the golden state before the instruction in WB, or before the next to
  // get there; each younger stage stands one golden step later if WB is filled,
  // another if MEM is, and so on.

  function MemState(e: Env, c: Core, g: Arch): Arch { if c.memWb.valid then Next(e, g) else g }

  function ExState(e: Env, c: Core, g: Arch): Arch {
    if c.exMem.valid then Next(e, MemState(e, c, g)) else MemState(e, c, g)
  }

  function IdState(e: Env, c: Core, g: Arch): Arch {
    if c.idEx.valid then Next(e, ExState(e, c, g)) else ExState(e, c, g)
  }

  /** MEM's access has been accepted by the data memory. */
  predicate Accessed(c: Core) { c.lsuWait || c.memDone }

  /** WB holds the golden instruction and its result; its register write may
      already have happened, in an earlier frozen cycle. */
  predicate WbHolds(e: Env, c: Core, g: Arch) {
    && (c.memWb.valid ==>
          && c.memWb.dec == Instr(e, g) && c.memWb.pc4 == Add32(g.pc, 4)
          && (c.memWb.dec.rdWen ==> WbResult(c.memWb) == WriteBack(e, g)))
    && (c.regs == g.regs || c.regs == MemState(e, c, g).regs)
  }

  /** What MEM needs of the execute result: not what a jump leaves in it. */
  predicate UsesResult(d: Decoded) { IsMemOp(d) || (d.rdWen && d.wbSel == WbAlu) }

  /** MEM holds the golden instruction, its operands and, once the bus has
      answered, its data; memory has seen its access if the bus accepted it. */
  predicate MemHolds(e: Env, c: Core, m: Mem, dPend: Option<Word>, g: Arch) {
    && (c.exMem.valid ==>
          && c.exMem.pc == g.pc && c.exMem.dec == Instr(e, g)
          && (UsesResult(c.exMem.dec) ==> c.exMem.alu == Result(e, g))
          && (c.exMem.dec.isStore ==> c.exMem.rs2Data == Rs2(e, g)))
    && (Accessed(c) ==> c.exMem.valid && IsMemOp(c.exMem.dec))
    && !(c.lsuWait && c.memDone)
    && (c.lsuWait <==> dPend.Some?)
    && (c.lsuWait && c.exMem.dec.isLoad ==> dPend == Some(BusEffect(e, g).1))
    && (c.memDone && c.exMem.dec.isLoad ==> c.latch == Loaded(e, g))
    && m == if Accessed(c) then Next(e, g).mem else g.mem
  }

  /** EX holds the golden instruction and the forwarding muxes give it the
      registers the golden model reads; a busy multiplier works on them. */
  predicate ExHolds(e: Env, c: Core, g: Arch) {
    && (c.idEx.valid ==>
          && c.idEx.pc == g.pc && c.idEx.dec == Instr(e, g)
          && (c.idEx.dec.rs1Used ==> Fwd1(c) == Rs1(e, g))
          && (c.idEx.dec.rs2Used ==> Fwd2(c) == Rs2(e, g)))
    && (c.md.phase != Idle ==>
          c.idEx.valid && c.idEx.dec.isMuldiv
          && e.b.mdRunning(c.md, c.idEx.dec.muldivOp, Rs1(e, g), Rs2(e, g)))
  }

  /** Where ID expects to be: straight after EX, or at the golden pc if EX is empty. */
  function IdPc(c: Core, g: Arch): Word { if c.idEx.valid then Add32(c.idEx.pc, 4) else g.pc }

  /** ID and IF run on sequentially from there; an empty ID holds a zero word. */
  predicate FetchHolds(e: Env, c: Core, iPend: Option<Word>, g: Arch) {
    && (c.ifId.valid ==> c.ifId.pc == IdPc(c, g) && c.ifId.instr == e.imem(c.ifId.pc))
    && (!c.ifId.valid ==> c.ifId.instr == 0)
    && c.pc == (if c.ifId.valid then Add32(IdPc(c, g), 4) else IdPc(c, g))
    && (c.fetchOutstanding <==> iPend.Some?)
    && (iPend.Some? ==> iPend.value == c.pc)
  }

  predicate Holds(e: Env, s: Sys, g: Arch) {
    && WbHolds(e, s.core, g)
    && MemHolds(e, s.core, s.mem, s.dPend, MemState(e, s.core, g))
    && ExHolds(e, s.core, ExState(e, s.core, g))
    && FetchHolds(e, s.core, s.iPend, IdState(e, s.core, g))
  }

  /** The instruction at `g` is supported, and decoded soundly. */
  predicate Good(e: Env, g: Arch) { Supported(Instr(e, g)) && DecodedSound(Instr(e, g)) }

  predicate AllGood(e: Env, s: Sys, g: Arch) {
    Good(e, g) && Good(e, MemState(e, s.core, g)) && Good(e, ExState(e, s.core, g)) && Good(e, IdState(e, s.core, g))
  }

  // ---- What each stage computes ---------------------------------------------

  /** After the write in WB the register file is the golden one. */
  lemma WriteBackMatches(e: Env, c: Core, g: Arch)
    requires WbHolds(e, c, g) && Good(e, g)
    ensures WriteReg(c.regs, c.memWb.valid && c.memWb.dec.rdWen, c.memWb.dec.rd, WbResult(c.memWb))
            == MemState(e, c, g).regs
  {
  }

  /** What ID reads through the bypass is the register file once WB has retired. */
  lemma ReadIdMatches(e: Env, c: Core, g: Arch, r: Reg)
    requires WbHolds(e, c, g) && Good(e, g)
    ensures ReadId(c, r) == ReadReg(MemState(e, c, g).regs, r)
  {
    WriteBackMatches(e, c, g);
  }

  /** Accepting MEM's access has the golden effect. */
  lemma AccessMatches(e: Env, c: Core, m: Mem, dPend: Option<Word>, g: Arch)
    requires MemHolds(e, c, m, dPend, g) && DataReq(c) && Good(e, g)
    ensures Bus(e.b, m, DataBus(e, c)).0 == BusEffect(e, g).0
    ensures c.exMem.dec.isLoad ==> Bus(e.b, m, DataBus(e, c)).1 == BusEffect(e, g).1
    ensures MakeAccess(DataBus(e, c)) == MakeAccess(Request(e, g))
  {
  }

  /** The execute stage computes what the golden model computes. */
  lemma ExecuteMatches(e: Env, c: Core, g: Arch)
    requires Sound(e.b) && Good(e, g) && ExHolds(e, c, g) && c.idEx.valid
    ensures UsesResult(c.idEx.dec) && !MuldivStall(c) ==> ExResult(e, c) == Result(e, g)
    ensures ExTarget(e, c) == Next(e, g).pc
    ensures !ExRedirect(e, c) ==> Next(e, g).pc == Add32(c.idEx.pc, 4)
  {
    var d := c.idEx.dec;
    if d.isMuldiv {
      assert RunsOn(e.b, c.md, d.muldivOp, Rs1(e, g), Rs2(e, g), d.muldivOp, Rs1(e, g), Rs2(e, g));
    } else if UsesResult(d) && !d.rs1Used && !d.usePc {
      assert PassesB(e.b, Fwd1(c), Rs1(e, g), if d.useImm then d.imm else Rs2(e, g));
    }
  }

  // ---- A frozen cycle: only the memories and the multiplier move ---------------

  lemma FrozenMem(e: Env, s: Sys, ch: Choice, g: Arch)
    requires MemHolds(e, s.core, s.mem, s.dPend, g) && Good(e, g)
    requires Frozen(s.core, PinsOf(e, s, ch))
    ensures var s' := Step(e, s, ch); MemHolds(e, s'.core, s'.mem, s'.dPend, g)
  {
    if DataReq(s.core) {
      AccessMatches(e, s.core, s.mem, s.dPend, g);
    }
  }

  lemma FrozenEx(e: Env, s: Sys, ch: Choice, g: Arch)
    requires MulDivSound(e.b) && Good(e, g) && ExHolds(e, s.core, g)
    requires Frozen(s.core, PinsOf(e, s, ch))
    ensures ExHolds(e, Step(e, s, ch).core, g)
  {
    var c := s.core;
    var op := c.idEx.dec.muldivOp;
    if c.md.phase == Idle {
      assert Starts(e.b, c.md, op, Fwd1(c), Fwd2(c));
    }
    assert RunsOn(e.b, c.md, op, Rs1(e, g), Rs2(e, g), op, Fwd1(c), Fwd2(c));
  }

  lemma FrozenFront(e: Env, s: Sys, ch: Choice, g: Arch)
    requires FetchHolds(e, s.core, s.iPend, g) && Frozen(s.core, PinsOf(e, s, ch))
    ensures var s' := Step(e, s, ch); FetchHolds(e, s'.core, s'.iPend, g)
  {
  }

  /** WB may write its register again; nothing else of the back end moves. */
  lemma FrozenWb(e: Env, s: Sys, ch: Choice, g: Arch)
    requires WbHolds(e, s.core, g) && Good(e, g)
    requires Frozen(s.core, PinsOf(e, s, ch))
    ensures WbHolds(e, Step(e, s, ch).core, g)
  {
    WriteBackMatches(e, s.core, g);
  }

  lemma FrozenStates(e: Env, s: Sys, ch: Choice, g: Arch)
    requires Frozen(s.core, PinsOf(e, s, ch))
    ensures var c' := Step(e, s, ch).core;
            && MemState(e, c', g) == MemState(e, s.core, g) && ExState(e, c', g) == ExState(e, s.core, g)
            && IdState(e, c', g) == IdState(e, s.core, g)
  {
    hide Next;
  }

  lemma FrozenStep(e: Env, s: Sys, ch: Choice, g: Arch)
    requires Sound(e.b) && Holds(e, s, g) && AllGood(e, s, g)
    requires Frozen(s.core, PinsOf(e, s, ch))
    ensures Holds(e, Step(e, s, ch), g)
  {
    hide Step, Frozen, PinsOf, Next, MemState, ExState, IdState, WbHolds, MemHolds, ExHolds, FetchHolds, Good;
    FrozenWb(e, s, ch, g);
    FrozenStates(e, s, ch, g);
    FrozenMem(e, s, ch, MemState(e, s.core, g));
    FrozenEx(e, s, ch, ExState(e, s.core, g));
    FrozenFront(e, s, ch, IdState(e, s.core, g));
  }

  // ---- A cycle in which EX, MEM and WB advance ---------------------------------

  /** MEM's instruction enters WB with its result. */
  lemma AdvanceWb(e: Env, s: Sys, ch: Choice, g: Arch)
    requires WbHolds(e, s.core, g) && Good(e, g)
    requires MemHolds(e, s.core, s.mem, s.dPend, MemState(e, s.core, g)) && Good(e, MemState(e, s.core, g))
    requires !Frozen(s.core, PinsOf(e, s, ch))
    ensures WbHolds(e, Step(e, s, ch).core, MemState(e, s.core, g))
  {
    hide ExTarget, ExRedirect, LoadUse, JalrFwdStall, NextIfId, NextIdEx, NextExMem, NextMd, ReadId, ForwardSel;
    WriteBackMatches(e, s.core, g);
    if DataReq(s.core) {
      AccessMatches(e, s.core, s.mem, s.dPend, MemState(e, s.core, g));
    }
  }

  /** MEM's access, if it has one, has happened exactly once by the time MEM moves on. */
  lemma AdvanceMemory(e: Env, s: Sys, ch: Choice, g: Arch)
    requires MemHolds(e, s.core, s.mem, s.dPend, g) && Good(e, g)
    requires !Frozen(s.core, PinsOf(e, s, ch))
    ensures var s' := Step(e, s, ch);
            && !Accessed(s'.core) && s'.dPend == None
            && s'.mem == if s.core.exMem.valid then Next(e, g).mem else g.mem
  {
    if DataReq(s.core) {
      AccessMatches(e, s.core, s.mem, s.dPend, g);
    }
  }

  /** EX's instruction enters MEM with its operands. */
  lemma AdvanceMem(e: Env, s: Sys, ch: Choice, g: Arch)
    requires Sound(e.b)
    requires MemHolds(e, s.core, s.mem, s.dPend, MemState(e, s.core, g)) && Good(e, MemState(e, s.core, g))
    requires ExHolds(e, s.core, ExState(e, s.core, g)) && Good(e, ExState(e, s.core, g))
    requires !Frozen(s.core, PinsOf(e, s, ch))
    ensures var s' := Step(e, s, ch); MemHolds(e, s'.core, s'.mem, s'.dPend, ExState(e, s.core, g))
  {
    AdvanceMemory(e, s, ch, MemState(e, s.core, g));
    if s.core.idEx.valid {
      ExecuteMatches(e, s.core, ExState(e, s.core, g));
    }
  }

  /** The multiplier is idle once EX has moved on. */
  lemma AdvanceMd(e: Env, s: Sys, ch: Choice, g: Arch)
    requires MulDivSound(e.b) && ExHolds(e, s.core, g)
    requires !Frozen(s.core, PinsOf(e, s, ch))
    ensures Step(e, s, ch).core.md.phase == Idle
  {
    var c := s.core;
    var op := c.idEx.dec.muldivOp;
    assert RunsOn(e.b, c.md, op, Rs1(e, g), Rs2(e, g), op, Fwd1(c), Fwd2(c));
  }

  /** `g` is the state before an instruction that writes `r`. */
  predicate WritesReg(e: Env, g: Arch, r: Reg) {
    Instr(e, g).rdWen && Instr(e, g).rd != 0 && Instr(e, g).rd == r
  }

  lemma RegAfter(e: Env, g: Arch, r: Reg)
    requires Good(e, g)
    ensures ReadReg(Next(e, g).regs, r) == if WritesReg(e, g, r) then WriteBack(e, g) else ReadReg(g.regs, r)
  {
  }

  /** Where the golden value of a register comes from: EX, else MEM, else older. */
  lemma RegSource(e: Env, c: Core, g: Arch, r: Reg)
    requires Good(e, MemState(e, c, g)) && Good(e, ExState(e, c, g))
    ensures ReadReg(IdState(e, c, g).regs, r) ==
            if c.idEx.valid && WritesReg(e, ExState(e, c, g), r) then WriteBack(e, ExState(e, c, g))
            else if c.exMem.valid && WritesReg(e, MemState(e, c, g), r) then WriteBack(e, MemState(e, c, g))
            else ReadReg(MemState(e, c, g).regs, r)
  {
    RegAfter(e, ExState(e, c, g), r);
    RegAfter(e, MemState(e, c, g), r);
  }

  /** The operand that ID/EX will select for register `r` is the golden register
      once everything older has executed: from MEM, from WB, from the register
      file or through the write-back bypass. */
  lemma OperandMatches(e: Env, s: Sys, ch: Choice, g: Arch, r: Reg)
    requires Sound(e.b) && Holds(e, s, g) && AllGood(e, s, g)
    requires !Frozen(s.core, PinsOf(e, s, ch)) && !ExRedirect(e, s.core)
    requires s.core.idEx.valid && s.core.idEx.dec.isLoad && s.core.idEx.dec.rd != 0 ==> s.core.idEx.dec.rd != r
    ensures Forwarded(Step(e, s, ch).core, ForwardSel(s.core, r, true), ReadId(s.core, r))
            == ReadReg(IdState(e, s.core, g).regs, r)
  {
    RegSource(e, s.core, g, r);
    match ForwardSel(s.core, r, true)
    case FwdNone => ReadIdMatches(e, s.core, g, r);
    case FwdExMem => ExecuteMatches(e, s.core, ExState(e, s.core, g));
    case FwdMemWb => AdvanceWb(e, s, ch, g);
  }

  // ---- The clock edge -------------------------------------------------------

  /** The golden state of WB after the edge. */
  function Advance(e: Env, s: Sys, ch: Choice, g: Arch): Arch {
    if Frozen(s.core, PinsOf(e, s, ch)) then g else MemState(e, s.core, g)
  }

  /** When the back end moves, each stage inherits the golden state of the one before. */
  lemma StatesShift(e: Env, s: Sys, ch: Choice, g: Arch)
    requires !Frozen(s.core, PinsOf(e, s, ch))
    ensures var c' := Step(e, s, ch).core;
            var g' := MemState(e, s.core, g);
            && MemState(e, c', g') == ExState(e, s.core, g)
            && ExState(e, c', g') == IdState(e, s.core, g)
  {
  }

  /** With no redirect lost, ID stands at the golden pc once EX has moved on. */
  lemma IdOnPath(e: Env, s: Sys, ch: Choice, g: Arch)
    requires Sound(e.b) && Holds(e, s, g) && AllGood(e, s, g)
    requires !ExRedirect(e, s.core) || ExTarget(e, s.core) == Add32(s.core.idEx.pc, 4)
    ensures IdPc(s.core, IdState(e, s.core, g)) == IdState(e, s.core, g).pc
  {
    if s.core.idEx.valid {
      ExecuteMatches(e, s.core, ExState(e, s.core, g));
    }
  }

  lemma BackEnd(e: Env, s: Sys, ch: Choice, g: Arch)
    requires Sound(e.b) && Holds(e, s, g) && AllGood(e, s, g)
    requires !Frozen(s.core, PinsOf(e, s, ch))
    ensures var s' := Step(e, s, ch);
            var g' := MemState(e, s.core, g);
            && WbHolds(e, s'.core, g')
            && MemHolds(e, s'.core, s'.mem, s'.dPend, MemState(e, s'.core, g'))
            && s'.core.md.phase == Idle
  {
    StatesShift(e, s, ch, g);
    AdvanceWb(e, s, ch, g);
    AdvanceMem(e, s, ch, g);
    AdvanceMd(e, s, ch, ExState(e, s.core, g));
  }

  /** A load-use or JALR stall: EX is emptied, ID and IF wait. */
  lemma StallFront(e: Env, s: Sys, ch: Choice, g: Arch)
    requires Sound(e.b) && Holds(e, s, g) && AllGood(e, s, g)
    requires !Frozen(s.core, PinsOf(e, s, ch)) && (LoadUse(e, s.core) || JalrFwdStall(e, s.core))
    requires !LostRedirect(e, s, ch)
    ensures var s' := Step(e, s, ch);
            !s'.core.idEx.valid && FetchHolds(e, s'.core, s'.iPend, IdState(e, s.core, g))
  {
    IdOnPath(e, s, ch, g);
  }

  /** A redirect: ID and EX are emptied, IF starts at the golden successor. */
  lemma RedirectFront(e: Env, s: Sys, ch: Choice, g: Arch)
    requires Sound(e.b) && Holds(e, s, g) && AllGood(e, s, g)
    requires !Frozen(s.core, PinsOf(e, s, ch)) && !LoadUse(e, s.core) && !JalrFwdStall(e, s.core)
    requires ExRedirect(e, s.core)
    ensures var s' := Step(e, s, ch);
            !s'.core.idEx.valid && FetchHolds(e, s'.core, s'.iPend, IdState(e, s.core, g))
  {
    ExecuteMatches(e, s.core, ExState(e, s.core, g));
  }

  /** Nothing in the way: ID enters EX with golden operands, IF moves to ID. */
  lemma FlowEx(e: Env, s: Sys, ch: Choice, g: Arch)
    requires Sound(e.b) && Holds(e, s, g) && AllGood(e, s, g)
    requires !Frozen(s.core, PinsOf(e, s, ch)) && !LoadUse(e, s.core) && !JalrFwdStall(e, s.core)
    requires !ExRedirect(e, s.core)
    ensures ExHolds(e, Step(e, s, ch).core, IdState(e, s.core, g))
  {
    IdOnPath(e, s, ch, g);
    AdvanceMd(e, s, ch, ExState(e, s.core, g));
    var d := IdDec(e, s.core);
    if s.core.ifId.valid {
      if d.rs1Used { OperandMatches(e, s, ch, g, d.rs1); }
      if d.rs2Used { OperandMatches(e, s, ch, g, d.rs2); }
    }
  }

  lemma FlowFront(e: Env, s: Sys, ch: Choice, g: Arch)
    requires Sound(e.b) && Holds(e, s, g) && AllGood(e, s, g)
    requires !Frozen(s.core, PinsOf(e, s, ch)) && !LoadUse(e, s.core) && !JalrFwdStall(e, s.core)
    requires !ExRedirect(e, s.core)
    ensures var s' := Step(e, s, ch);
            FetchHolds(e, s'.core, s'.iPend, IdState(e, s'.core, MemState(e, s.core, g)))
  {
    StatesShift(e, s, ch, g);
    IdOnPath(e, s, ch, g);
  }

  lemma MovingStep(e: Env, s: Sys, ch: Choice, g: Arch)
    requires Sound(e.b) && Holds(e, s, g) && AllGood(e, s, g) && !LostRedirect(e, s, ch)
    requires !Frozen(s.core, PinsOf(e, s, ch))
    ensures Holds(e, Step(e, s, ch), MemState(e, s.core, g))
  {
    hide Step, Frozen, PinsOf, Next, MemState, WbHolds, MemHolds, FetchHolds, Good, LoadUse, JalrFwdStall,
         ExRedirect, LostRedirect, Fwd1, Fwd2;
    StatesShift(e, s, ch, g);
    BackEnd(e, s, ch, g);
    if LoadUse(e, s.core) || JalrFwdStall(e, s.core) {
      StallFront(e, s, ch, g);
    } else if ExRedirect(e, s.core) {
      RedirectFront(e, s, ch, g);
    } else {
      FlowEx(e, s, ch, g);
      FlowFront(e, s, ch, g);
    }
  }

  lemma StepHolds(e: Env, s: Sys, ch: Choice, g: Arch)
    requires Sound(e.b) && Holds(e, s, g) && AllGood(e, s, g) && !LostRedirect(e, s, ch)
    ensures Holds(e, Step(e, s, ch), Advance(e, s, ch, g))
  {
    if Frozen(s.core, PinsOf(e, s, ch)) {
      FrozenStep(e, s, ch, g);
    } else {
      MovingStep(e, s, ch, g);
    }
  }

  /** A lost redirect leaves a wrong-path JALR standing in ID as if it were next. */
  lemma LostStep(e: Env, s: Sys, ch: Choice, g: Arch)
    requires Sound(e.b) && Holds(e, s, g) && AllGood(e, s, g) && LostRedirect(e, s, ch)
    ensures !Holds(e, Step(e, s, ch), Advance(e, s, ch, g))
  {
    StatesShift(e, s, ch, g);
    ExecuteMatches(e, s.core, ExState(e, s.core, g));
  }
}
