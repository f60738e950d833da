/** The stage-2 core between an instruction memory and a data memory that answer
    after any number of cycles, with an observer at each interface. */
module System {
  import opened Machine
  import opened Golden
  import opened Pipeline

  /** What the two memories choose to do in a cycle; any sequence is a schedule. */
  datatype Choice = Choice(iGnt: bool, iRvalid: bool, dGnt: bool, dRvalid: bool)

  /** Memories that grant and answer at once. */
  const READY := Choice(true, true, true, true)

  /** `iPend` is the address of the fetch in flight and `dPend` the answer the
      data memory owes; `retired` and `bus` are what the observers have seen. */
  datatype Sys = Sys(core: Core, mem: Mem, iPend: Option<Word>, dPend: Option<Word>,
                     retired: seq<Retire>, bus: seq<Access>)

  function FetchAccepted(s: Sys, ch: Choice): bool { !s.core.fetchOutstanding && ch.iGnt }

  /** A fetch answers only if one is in flight or is accepted in this cycle. */
  function FetchValid(s: Sys, ch: Choice): bool {
    ch.iRvalid && (s.iPend.Some? || FetchAccepted(s, ch))
  }

  function DataAccepted(s: Sys, ch: Choice): bool { DataReq(s.core) && ch.dGnt }

  /** The data memory commits an access when it accepts it. */
  function DataEffect(e: Env, s: Sys, ch: Choice): (Mem, Word) {
    if DataAccepted(s, ch) then Bus(e.b, s.mem, DataBus(e, s.core)) else (s.mem, 0)
  }

  function PinsOf(e: Env, s: Sys, ch: Choice): Pins {
    Pins(ch.iGnt, FetchValid(s, ch), e.imem(if s.iPend.Some? then s.iPend.value else s.core.pc),
         ch.dGnt, ch.dRvalid, if s.dPend.Some? then s.dPend.value else DataEffect(e, s, ch).1)
  }

  /** One clock cycle. An instruction retires as it leaves WB. */
  function Step(e: Env, s: Sys, ch: Choice): Sys {
    var p := PinsOf(e, s, ch);
    var c := s.core;
    Sys(
      NextCore(e, c, p),
      DataEffect(e, s, ch).0,
      if p.iRvalid then None else if FetchAccepted(s, ch) then Some(c.pc) else s.iPend,
      if ch.dRvalid then None else if DataAccepted(s, ch) then Some(DataEffect(e, s, ch).1) else s.dPend,
      if c.memWb.valid && !Frozen(c, p)
        then s.retired + [MakeRetire(c.memWb.pc4, c.memWb.dec, WbResult(c.memWb))] else s.retired,
      if DataAccepted(s, ch) then s.bus + [MakeAccess(DataBus(e, c))] else s.bus)
  }

  function Run(e: Env, s: Sys, sched: seq<Choice>): Sys {
    if sched == [] then s else Step(e, Run(e, s, sched[..|sched| - 1]), sched[|sched| - 1])
  }

  /** Out of reset, with whatever the register file and the memory hold. */
  predicate ResetCore(c: Core) {
    && c.ifId == IF_ID_ZERO && c.idEx == ID_EX_ZERO && c.exMem == EX_MEM_ZERO && c.memWb == MEM_WB_ZERO
    && !c.fetchOutstanding && !c.lsuWait && !c.memDone && c.md.phase == Idle
  }

  predicate Reset(s: Sys, g0: Arch) {
    && ResetCore(s.core)
    && s.core.pc == g0.pc && s.core.regs == g0.regs && s.mem == g0.mem
    && s.iPend == None && s.dPend == None && s.retired == [] && s.bus == []
  }

  /** The cycle in which the JALR-forward stall, which ranks above the redirect,
      discards a redirect that leaves the sequential path. */
  function LostRedirect(e: Env, s: Sys, ch: Choice): bool {
    && !Frozen(s.core, PinsOf(e, s, ch))
    && JalrFwdStall(e, s.core) && ExRedirect(e, s.core)
    && ExTarget(e, s.core) != Add32(s.core.idEx.pc, 4)
  }

  predicate KeepsRedirects(e: Env, s: Sys, sched: seq<Choice>) {
    forall k :: 0 <= k < |sched| ==> !LostRedirect(e, Run(e, s, sched[..k]), sched[k])
  }
}
