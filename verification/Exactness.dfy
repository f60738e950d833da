/** Exactly which programs the pipeline runs correctly: the stall that discards a
    redirect can be read off the golden run, whatever the memories' timing. */
module Exactness {
  import opened Machine
  import opened Golden
  import opened Pipeline
  import opened System
  import opened Refinement
  import opened Correctness

  /** The instruction at `g` leaves the sequential path, or jumps to its successor. */
  predicate RedirectsAt(e: Env, g: Arch) {
    var d := Instr(e, g);
    d.isJal || d.isJalr || (d.isBranch && Taken(e, g))
  }

  predicate Uses(d: Decoded, r: Reg) { (d.rs1Used && d.rs1 == r) || (d.rs2Used && d.rs2 == r) }

  predicate LoadUseAt(e: Env, g: Arch, g': Arch) {
    Instr(e, g).isLoad && Instr(e, g).rd != 0 && Uses(Instr(e, g'), Instr(e, g).rd)
  }

  /** Instruction `k` executes in the cycle after `k - 1` does, with no bubble
      between them: `k - 1` did not redirect, did not load an operand of `k`, and
      `k` was not a JALR held in ID by `k - 2`. */
  predicate Adjacent(e: Env, g0: Arch, k: nat) {
    k > 0
    && !RedirectsAt(e, At(e, g0, k - 1))
    && !LoadUseAt(e, At(e, g0, k - 1), At(e, g0, k))
    && !(Instr(e, At(e, g0, k)).isJalr && Adjacent(e, g0, k - 1)
         && WritesReg(e, At(e, g0, k - 2), Instr(e, At(e, g0, k)).rs1))
  }

  /** Instruction `k` leaves the sequential path, and the word after it in memory
      is a JALR on the register that `k - 1`, one cycle ahead of `k`, writes. */
  predicate HazardAt(e: Env, g0: Arch, k: nat) {
    && Adjacent(e, g0, k)
    && var g := At(e, g0, k);
       var j := e.b.decode(e.imem(Add32(g.pc, 4)));
       && RedirectsAt(e, g) && NextPc(e, g) != Add32(g.pc, 4)
       && j.isJalr && WritesReg(e, At(e, g0, k - 1), j.rs1)
  }

  /** Bubbles in EX and MEM are where the golden run says they are. */
  predicate Spaced(e: Env, g0: Arch, s: Sys) {
    && (s.core.idEx.valid ==> s.core.ifId.valid && (s.core.exMem.valid <==> Adjacent(e, g0, ExPos(s))))
    && (!s.core.idEx.valid ==> !Adjacent(e, g0, IdPos(s)))
  }

  // ---- The stall conditions, read off the golden run ---------------------------

  lemma RedirectMatches(e: Env, c: Core, g: Arch)
    requires ExHolds(e, c, g) && Good(e, g) && c.idEx.valid
    ensures ExRedirect(e, c) == RedirectsAt(e, g)
    ensures ExTarget(e, c) == NextPc(e, g)
  {
  }

  /** What ID holds while EX is filled: the golden successor unless EX redirects. */
  lemma IdMatches(e: Env, s: Sys, g: Arch)
    requires Sound(e.b) && Holds(e, s, g) && AllGood(e, s, g) && s.core.idEx.valid && s.core.ifId.valid
    ensures IdDec(e, s.core) == e.b.decode(e.imem(Add32(ExState(e, s.core, g).pc, 4)))
    ensures !RedirectsAt(e, ExState(e, s.core, g)) ==> IdDec(e, s.core) == Instr(e, IdState(e, s.core, g))
  {
    ExecuteMatches(e, s.core, ExState(e, s.core, g));
    RedirectMatches(e, s.core, ExState(e, s.core, g));
  }

  lemma StallMatches(e: Env, s: Sys, g: Arch)
    requires Sound(e.b) && Holds(e, s, g) && AllGood(e, s, g)
    requires s.core.idEx.valid && s.core.ifId.valid && !RedirectsAt(e, ExState(e, s.core, g))
    ensures LoadUse(e, s.core) == LoadUseAt(e, ExState(e, s.core, g), IdState(e, s.core, g))
    ensures var d := Instr(e, IdState(e, s.core, g));
            JalrFwdStall(e, s.core) == (d.isJalr && s.core.exMem.valid && WritesReg(e, MemState(e, s.core, g), d.rs1))
  {
    IdMatches(e, s, g);
  }

  /** A redirect is lost exactly in a cycle that moves the hazardous instruction out of EX. */
  lemma LostMatches(e: Env, s: Sys, ch: Choice, g: Arch)
    requires Sound(e.b) && Holds(e, s, g) && AllGood(e, s, g)
    requires s.core.idEx.valid ==> s.core.ifId.valid
    ensures LostRedirect(e, s, ch) <==>
            && !Frozen(s.core, PinsOf(e, s, ch)) && s.core.idEx.valid && s.core.exMem.valid
            && var x := ExState(e, s.core, g);
               var j := e.b.decode(e.imem(Add32(x.pc, 4)));
               && RedirectsAt(e, x) && NextPc(e, x) != Add32(x.pc, 4)
               && j.isJalr && WritesReg(e, MemState(e, s.core, g), j.rs1)
  {
    if s.core.idEx.valid {
      IdMatches(e, s, g);
      RedirectMatches(e, s.core, ExState(e, s.core, g));
    }
  }

  lemma LostIffHazard(e: Env, g0: Arch, s: Sys, ch: Choice)
    requires Context(e, g0) && Refines(e, g0, s) && Spaced(e, g0, s)
    ensures LostRedirect(e, s, ch) <==>
            !Frozen(s.core, PinsOf(e, s, ch)) && s.core.idEx.valid && HazardAt(e, g0, ExPos(s))
  {
    hide Next, At, Frozen, PinsOf, NextPc, LostRedirect, Holds;
    AllGoodAt(e, g0, s);
    StatesAt(e, g0, s);
    LostMatches(e, s, ch, At(e, g0, WbPos(s)));
  }

  // ---- Spacing is kept --------------------------------------------------------

  /** How the front end moves: what is in EX and ID after the edge. */
  lemma FrontMoves(e: Env, s: Sys, ch: Choice)
    requires !Frozen(s.core, PinsOf(e, s, ch))
    ensures var c, c' := s.core, Step(e, s, ch).core;
            && c'.exMem.valid == c.idEx.valid
            && IdPos(Step(e, s, ch)) == IdPos(s) + Count(c'.idEx.valid)
            && ExPos(Step(e, s, ch)) == IdPos(s)
            && (LoadUse(e, c) || JalrFwdStall(e, c) || ExRedirect(e, c) ==> !c'.idEx.valid)
            && (!LoadUse(e, c) && !JalrFwdStall(e, c) && !ExRedirect(e, c) ==>
                  c'.idEx.valid == c.ifId.valid && c'.ifId.valid)
  {
  }

  lemma FrontWaits(e: Env, s: Sys, ch: Choice)
    requires Frozen(s.core, PinsOf(e, s, ch))
    ensures var s' := Step(e, s, ch);
            && s'.core.exMem.valid == s.core.exMem.valid && s'.core.idEx.valid == s.core.idEx.valid
            && s'.core.ifId.valid == s.core.ifId.valid
            && IdPos(s') == IdPos(s) && ExPos(s') == ExPos(s)
  {
  }

  lemma ResetSpaced(e: Env, g0: Arch, s: Sys)
    requires Reset(s, g0)
    ensures Spaced(e, g0, s)
  {
  }

  lemma StepSpaced(e: Env, g0: Arch, s: Sys, ch: Choice)
    requires Context(e, g0) && Refines(e, g0, s) && Spaced(e, g0, s)
    ensures Spaced(e, g0, Step(e, s, ch))
  {
    hide Next, At, Frozen, PinsOf, Holds, Step, LoadUse, JalrFwdStall, ExRedirect, LoadUseAt, RedirectsAt, WritesReg;
    if Frozen(s.core, PinsOf(e, s, ch)) {
      FrontWaits(e, s, ch);
    } else {
      FrontMoves(e, s, ch);
      if s.core.idEx.valid {
        StatesAt(e, g0, s);
        AllGoodAt(e, g0, s);
        ExMatches(e, g0, s);
        if !RedirectsAt(e, At(e, g0, ExPos(s))) {
          StallMatches(e, s, At(e, g0, WbPos(s)));
        }
      } else {
        NoStall(e, s.core);
      }
    }
  }

  lemma ExMatches(e: Env, g0: Arch, s: Sys)
    requires Context(e, g0) && Refines(e, g0, s) && s.core.idEx.valid
    ensures ExRedirect(e, s.core) == RedirectsAt(e, At(e, g0, ExPos(s)))
  {
    hide Next, At;
    StatesAt(e, g0, s);
    AllGoodAt(e, g0, s);
    RedirectMatches(e, s.core, At(e, g0, ExPos(s)));
  }

  lemma NoStall(e: Env, c: Core)
    requires !c.idEx.valid
    ensures !LoadUse(e, c) && !ExRedirect(e, c)
  {
  }
}
