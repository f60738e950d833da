/** The clocked form of the stage-2 core and its two memories: registers updated
    in place, edge by edge. */
module KronosTop {
  import opened Machine
  import opened Golden
  import opened Pipeline
  import opened System
  import opened Correctness
  import opened Exact

  class Core2 {
    var pc: Word
    var ifId: IfId
    var idEx: IdEx
    var exMem: ExMem
    var memWb: MemWb
    var regs: Regs
    var fetchOutstanding: bool
    var lsuWait: bool
    var memDone: bool
    var latch: Word
    var md: MdState

    function View(): Core
      reads this
    {
      Core(pc, ifId, idEx, exMem, memWb, regs, fetchOutstanding, lsuWait, memDone, latch, md)
    }

    constructor (bootAddr: Word, regs0: Regs, mdReset: MdState)
      requires mdReset.phase == Idle
      ensures ResetCore(View()) && pc == bootAddr && regs == regs0 && md == mdReset
    {
      pc, regs := bootAddr, regs0;
      ifId, idEx, exMem, memWb := IF_ID_ZERO, ID_EX_ZERO, EX_MEM_ZERO, MEM_WB_ZERO;
      fetchOutstanding, lsuWait, memDone, latch, md := false, false, false, 0, mdReset;
    }

    // One method per clocked block of the source; the wires it samples are arguments.

    method RegfileEdge(wen: bool, rd: Reg, wdata: Word)
      modifies `regs
      ensures regs == WriteReg(old(regs), wen, rd, wdata)
    {
      if wen && rd != 0 {
        regs := regs[rd := wdata];
      }
    }

    method FetchEdge(gnt: bool, rvalid: bool)
      modifies `fetchOutstanding
      ensures fetchOutstanding == if gnt && !rvalid then true else if rvalid then false else old(fetchOutstanding)
    {
      if gnt && !rvalid {
        fetchOutstanding := true;
      } else if rvalid {
        fetchOutstanding := false;
      }
    }

    method LsuEdge(req: bool, gnt: bool, rvalid: bool)
      modifies `lsuWait
      ensures lsuWait == if old(lsuWait) then !rvalid else req && gnt && !rvalid
    {
      if lsuWait {
        if rvalid { lsuWait := false; }
      } else if req && gnt && !rvalid {
        lsuWait := true;
      }
    }

    method MemDoneEdge(lsuValid: bool, lsuRdata: Word, memWbEn: bool)
      modifies `memDone, `latch
      ensures memDone == (!memWbEn && (lsuValid || old(memDone)))
      ensures latch == if lsuValid then lsuRdata else old(latch)
    {
      if lsuValid {
        memDone, latch := true, lsuRdata;
      }
      if memWbEn {
        memDone := false;
      }
    }

    /** The register file, the load/store unit and the fetch throttle. */
    method UnitEdges(e: Env, p: Pins)
      modifies `regs, `memDone, `latch, `lsuWait, `fetchOutstanding
      ensures var n := NextCore(e, old(View()), p);
              && regs == n.regs && memDone == n.memDone && latch == n.latch
              && lsuWait == n.lsuWait && fetchOutstanding == n.fetchOutstanding
    {
      hide Controls, ExRedirect, ExTarget, LsuValid, LsuRdata, LsuReq, WbResult, NextMd,
           NextIfId, NextIdEx, NextExMem, NextMemWb, WriteReg, Add32;
      var c := View();
      var memWbEn := Controls(e, c, p).memWbEn;
      RegfileEdge(c.memWb.valid && c.memWb.dec.rdWen, c.memWb.dec.rd, WbResult(c.memWb));
      MemDoneEdge(LsuValid(c, p), LsuRdata(e, c, p), memWbEn);
      LsuEdge(LsuReq(c), p.dGnt, p.dRvalid);
      FetchEdge(p.iGnt, p.iRvalid);
    }

    /** One clock edge: the wires settle on the registers' values, then every
        block updates its registers. */
    method Clock(e: Env, p: Pins)
      modifies this
      ensures View() == NextCore(e, old(View()), p)
    {
      hide Controls, ExRedirect, ExTarget, LsuValid, LsuRdata, LsuReq, WbResult, NextMd,
           NextIfId, NextIdEx, NextExMem, NextMemWb, WriteReg, Add32;
      var c := View();
      var k := Controls(e, c, p);
      UnitEdges(e, p);
      ifId, idEx, exMem, memWb, md :=
        NextIfId(c, p, k), NextIdEx(e, c, k), NextExMem(e, c, k), NextMemWb(e, c, p, k), NextMd(e, c, p);
      if k.pcEn {
        pc := if ExRedirect(e, c) then ExTarget(e, c) else Add32(pc, 4);
      }
    }
  }

  class Bench {
    const core: Core2
    var mem: Mem
    var iPend: Option<Word>
    var dPend: Option<Word>
    var retired: seq<Retire>
    var bus: seq<Access>

    function View(): Sys
      reads this, core
    {
      Sys(core.View(), mem, iPend, dPend, retired, bus)
    }

    constructor (core: Core2, mem: Mem)
      ensures this.core == core && View() == Sys(core.View(), mem, None, None, [], [])
    {
      this.core, this.mem := core, mem;
      iPend, dPend, retired, bus := None, None, [], [];
    }

    method Cycle(e: Env, ch: Choice)
      modifies this, core
      ensures View() == Step(e, old(View()), ch)
    {
      hide NextCore, PinsOf, Frozen, DataAccepted, FetchAccepted, DataBus, WbResult, MakeRetire;
      var s := View();
      var p := PinsOf(e, s, ch);
      if core.memWb.valid && !Frozen(core.View(), p) {
        retired := retired + [MakeRetire(core.memWb.pc4, core.memWb.dec, WbResult(core.memWb))];
      }
      if DataAccepted(s, ch) {
        var (m, answer) := DataEffect(e, s, ch);
        bus := bus + [MakeAccess(DataBus(e, core.View()))];
        mem, dPend := m, Some(answer);
      }
      if ch.dRvalid { dPend := None; }
      if p.iRvalid { iPend := None; } else if FetchAccepted(s, ch) { iPend := Some(core.pc); }
      core.Clock(e, p);
    }

    /** Any number of cycles, with the memories' choices given. */
    method Simulate(e: Env, sched: seq<Choice>)
      modifies this, core
      ensures View() == Run(e, old(View()), sched)
    {
      ghost var s0 := View();
      var i := 0;
      while i < |sched|
        invariant 0 <= i <= |sched| && View() == Run(e, s0, sched[..i])
      {
        Cycle(e, sched[i]);
        assert sched[..i + 1][..i] == sched[..i];
        i := i + 1;
      }
      assert sched[..i] == sched;
    }
  }

  /** From reset, on a hazard-free program, the bench observes the golden run. */
  method Execute(e: Env, g0: Arch, mdReset: MdState, sched: seq<Choice>)
    returns (retired: seq<Retire>, bus: seq<Access>, mem: Mem, ghost s0: Sys)
    requires Context(e, g0) && HazardFree(e, g0) && mdReset.phase == Idle
    ensures Reset(s0, g0) && s0.core.md == mdReset
    ensures var s := Run(e, s0, sched); retired == s.retired && bus == s.bus && mem == s.mem
    ensures retired == Retired(e, g0, |retired|)
    ensures exists n: nat :: bus == Accesses(e, g0, n) && mem == At(e, g0, n).mem && |retired| <= n <= |retired| + 2
  {
    hide NextCore, Step, HazardFree, Sound, LegalRun;
    var core := new Core2(g0.pc, g0.regs, mdReset);
    var bench := new Bench(core, g0.mem);
    s0 := bench.View();
    bench.Simulate(e, sched);
    HazardFreeRun(e, g0, s0, sched);
    MemoryAt(e, g0, bench.View());
    retired, bus, mem := bench.retired, bench.bus, bench.mem;
  }
}
