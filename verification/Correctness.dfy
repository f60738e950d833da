/** Whole runs: what the observers of the pipeline see is what the golden model
    does, for every schedule of the two memories that loses no redirect. */
module Correctness {
  import opened Machine
  import opened Golden
  import opened Pipeline
  import opened System
  import opened Refinement

  function Count(b: bool): nat { if b then 1 else 0 }

  // Position in the golden run of the instruction that each stage holds, or
  // will hold next.

  function WbPos(s: Sys): nat { |s.retired| }

  function MemPos(s: Sys): nat { WbPos(s) + Count(s.core.memWb.valid) }

  function ExPos(s: Sys): nat { MemPos(s) + Count(s.core.exMem.valid) }

  function IdPos(s: Sys): nat { ExPos(s) + Count(s.core.idEx.valid) }

  /** Instructions whose effect on memory has happened. */
  function BusPos(s: Sys): nat { MemPos(s) + Count(Accessed(s.core)) }

  /** A decoder, ALU and multiplier that keep their contracts, and a program
      that stays within what they support. */
  ghost predicate Context(e: Env, g0: Arch) { Sound(e.b) && LegalRun(e, g0) }

  predicate Refines(e: Env, g0: Arch, s: Sys) {
    && Holds(e, s, At(e, g0, WbPos(s)))
    && s.retired == Retired(e, g0, WbPos(s))
    && s.bus == Accesses(e, g0, BusPos(s))
  }

  lemma AtAfter(e: Env, g0: Arch, n: nat, valid: bool)
    ensures (if valid then Next(e, At(e, g0, n)) else At(e, g0, n)) == At(e, g0, n + Count(valid))
  {
  }

  lemma StatesAt(e: Env, g0: Arch, s: Sys)
    ensures var g := At(e, g0, WbPos(s));
            && MemState(e, s.core, g) == At(e, g0, MemPos(s))
            && ExState(e, s.core, g) == At(e, g0, ExPos(s))
            && IdState(e, s.core, g) == At(e, g0, IdPos(s))
  {
    hide Next, At;
    AtAfter(e, g0, WbPos(s), s.core.memWb.valid);
    AtAfter(e, g0, MemPos(s), s.core.exMem.valid);
    AtAfter(e, g0, ExPos(s), s.core.idEx.valid);
  }

  lemma GoodAt(e: Env, g0: Arch, n: nat)
    requires Context(e, g0)
    ensures Good(e, At(e, g0, n))
  {
    assert LegalAt(e, g0, n) && DecodesWell(e.b, e.imem(At(e, g0, n).pc));
  }

  lemma AllGoodAt(e: Env, g0: Arch, s: Sys)
    requires Context(e, g0)
    ensures AllGood(e, s, At(e, g0, WbPos(s)))
  {
    StatesAt(e, g0, s);
    GoodAt(e, g0, WbPos(s));
    GoodAt(e, g0, MemPos(s));
    GoodAt(e, g0, ExPos(s));
    GoodAt(e, g0, IdPos(s));
  }

  lemma ResetRefines(e: Env, g0: Arch, s: Sys)
    requires Context(e, g0) && Reset(s, g0)
    ensures Refines(e, g0, s)
  {
  }

  lemma TracesNext(e: Env, g0: Arch, n: nat)
    ensures Retired(e, g0, n + 1) == Retired(e, g0, n) + [RetireOf(e, At(e, g0, n))]
    ensures Accesses(e, g0, n + 1) == Accesses(e, g0, n) + AccessOf(e, At(e, g0, n))
  {
  }

  lemma RetireMatches(e: Env, c: Core, g: Arch)
    requires WbHolds(e, c, g)
    ensures c.memWb.valid ==> MakeRetire(c.memWb.pc4, c.memWb.dec, WbResult(c.memWb)) == RetireOf(e, g)
  {
  }

  /** A retirement extends the observed trace by the golden retirement. */
  lemma RetireStep(e: Env, g0: Arch, s: Sys, ch: Choice)
    requires Context(e, g0) && Refines(e, g0, s)
    ensures var s' := Step(e, s, ch);
            && s'.retired == Retired(e, g0, WbPos(s'))
            && At(e, g0, WbPos(s')) == Advance(e, s, ch, At(e, g0, WbPos(s)))
  {
    hide Next, At, Retired, RetireOf, NextCore, MemHolds, ExHolds, FetchHolds, Sound, LegalRun, Frozen, PinsOf;
    var g := At(e, g0, WbPos(s));
    GoodAt(e, g0, WbPos(s));
    RetireMatches(e, s.core, g);
    AtAfter(e, g0, WbPos(s), true);
    TracesNext(e, g0, WbPos(s));
  }

  /** MEM's instruction counts as performed from the cycle in which its access is
      accepted or, if it makes none, in which it leaves MEM; and only once. */
  lemma BusPosStep(e: Env, s: Sys, ch: Choice, g: Arch)
    requires MemHolds(e, s.core, s.mem, s.dPend, g)
    ensures var done := DataAccepted(s, ch)
                        || (!Frozen(s.core, PinsOf(e, s, ch)) && s.core.exMem.valid && !IsMemOp(s.core.exMem.dec));
            && BusPos(Step(e, s, ch)) == BusPos(s) + Count(done)
            && (done ==> BusPos(s) == MemPos(s) && s.core.exMem.valid)
            && (DataAccepted(s, ch) ==> IsMemOp(s.core.exMem.dec))
  {
    hide Next;
  }

  /** A bus transaction extends the observed accesses by the golden one, and a
      memory instruction that leaves MEM has made exactly one. */
  lemma BusStep(e: Env, g0: Arch, s: Sys, ch: Choice)
    requires Context(e, g0) && Refines(e, g0, s)
    ensures var s' := Step(e, s, ch); s'.bus == Accesses(e, g0, BusPos(s'))
  {
    hide Next, At, Accesses, Retired, WbHolds, ExHolds, FetchHolds, Sound, LegalRun, NextCore, BusPos, Frozen, PinsOf;
    var g := At(e, g0, MemPos(s));
    StatesAt(e, g0, s);
    GoodAt(e, g0, MemPos(s));
    TracesNext(e, g0, MemPos(s));
    BusPosStep(e, s, ch, g);
    if DataReq(s.core) {
      AccessMatches(e, s.core, s.mem, s.dPend, g);
    }
  }

  lemma StepRefines(e: Env, g0: Arch, s: Sys, ch: Choice)
    requires Context(e, g0) && Refines(e, g0, s) && !LostRedirect(e, s, ch)
    ensures Refines(e, g0, Step(e, s, ch))
  {
    AllGoodAt(e, g0, s);
    StepHolds(e, s, ch, At(e, g0, WbPos(s)));
    RetireStep(e, g0, s, ch);
    BusStep(e, g0, s, ch);
  }

  /** The refinement: over every schedule that loses no redirect, the pipeline
      has at each moment retired a prefix of the golden run and made a prefix of
      its memory accesses, and memory is the golden memory at that point. */
  lemma {:induction false} RunRefines(e: Env, g0: Arch, s: Sys, sched: seq<Choice>)
    requires Context(e, g0) && Reset(s, g0) && KeepsRedirects(e, s, sched)
    ensures Refines(e, g0, Run(e, s, sched))
  {
    hide Sound, LegalRun, Refines, LostRedirect, Step;
    if sched == [] {
      ResetRefines(e, g0, s);
    } else {
      var n := |sched| - 1;
      var early := sched[..n];
      forall k | 0 <= k < |early| ensures !LostRedirect(e, Run(e, s, early[..k]), early[k]) {
        assert early[..k] == sched[..k];
      }
      RunRefines(e, g0, s, early);
      StepRefines(e, g0, Run(e, s, early), sched[n]);
    }
  }

  /** Memory is the golden memory after exactly the accesses seen on the bus, at
      most two instructions ahead of the last one retired. */
  lemma MemoryAt(e: Env, g0: Arch, s: Sys)
    requires Refines(e, g0, s)
    ensures s.mem == At(e, g0, BusPos(s)).mem && WbPos(s) <= BusPos(s) <= WbPos(s) + 2
  {
    hide Next, At;
    StatesAt(e, g0, s);
    AtAfter(e, g0, MemPos(s), Accessed(s.core));
  }

  /** In every state that refines, a valid instruction in EX is the golden one and
      its forwarding muxes deliver the registers the golden model reads. */
  lemma OperandsGolden(e: Env, g0: Arch, s: Sys)
    requires Refines(e, g0, s) && s.core.idEx.valid
    ensures var g := At(e, g0, ExPos(s));
            && s.core.idEx.pc == g.pc && s.core.idEx.dec == Instr(e, g)
            && (s.core.idEx.dec.rs1Used ==> Fwd1(s.core) == ReadReg(g.regs, s.core.idEx.dec.rs1))
            && (s.core.idEx.dec.rs2Used ==> Fwd2(s.core) == ReadReg(g.regs, s.core.idEx.dec.rs2))
  {
    hide Next, At;
    StatesAt(e, g0, s);
  }

  /** Nothing off the golden path is ever valid in EX, MEM or WB: each holds the
      instruction at its place in the golden run. */
  lemma StagesOnPath(e: Env, g0: Arch, s: Sys)
    requires Refines(e, g0, s)
    ensures s.core.idEx.valid ==> s.core.idEx.pc == At(e, g0, ExPos(s)).pc
    ensures s.core.exMem.valid ==> s.core.exMem.pc == At(e, g0, MemPos(s)).pc
    ensures s.core.memWb.valid ==> s.core.memWb.pc4 == Add32(At(e, g0, WbPos(s)).pc, 4)
  {
    hide Next, At;
    StatesAt(e, g0, s);
  }
}
