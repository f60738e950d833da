/** With memories that answer at once the pipeline retires again and again, by an
    explicit decreasing measure; right or wrong, whatever it executes. */
module Progress {
  import opened Machine
  import opened Golden
  import opened Pipeline
  import opened System

  /** A busy multiplier works for EX, and the throttle knows of the fetch in flight. */
  predicate Live(e: Env, s: Sys) {
    var c := s.core;
    && (c.md.phase != Idle ==>
          c.idEx.valid && c.idEx.dec.isMuldiv && e.b.mdRunning(c.md, c.idEx.dec.muldivOp, Fwd1(c), Fwd2(c)))
    && (c.fetchOutstanding <==> s.iPend.Some?)
  }

  lemma MdRuns(e: Env, s: Sys)
    requires MulDivSound(e.b)
    ensures var c := s.core;
            var op := c.idEx.dec.muldivOp;
            Starts(e.b, c.md, op, Fwd1(c), Fwd2(c)) && RunsOn(e.b, c.md, op, Fwd1(c), Fwd2(c), op, Fwd1(c), Fwd2(c))
  {
  }

  lemma LiveStep(e: Env, s: Sys, ch: Choice)
    requires MulDivSound(e.b) && Live(e, s)
    ensures Live(e, Step(e, s, ch))
    ensures !Frozen(s.core, PinsOf(e, s, ch)) ==> Step(e, s, ch).core.md.phase == Idle
  {
    hide MulDivSound, ExTarget, ExRedirect, LoadUse, JalrFwdStall, WriteReg, LsuRdata, DataBus, ReadId;
    MdRuns(e, s);
  }

  lemma {:induction false} LiveRun(e: Env, g0: Arch, s0: Sys, sched: seq<Choice>)
    requires MulDivSound(e.b) && Reset(s0, g0)
    ensures Live(e, Run(e, s0, sched))
  {
    hide Step, Live;
    if sched == [] {
      LiveReset(e, g0, s0);
    } else {
      LiveRun(e, g0, s0, sched[..|sched| - 1]);
      LiveStep(e, Run(e, s0, sched[..|sched| - 1]), sched[|sched| - 1]);
    }
  }

  lemma LiveReset(e: Env, g0: Arch, s0: Sys)
    requires Reset(s0, g0)
    ensures Live(e, s0)
  {
  }

  // ---- The measure ------------------------------------------------------------

  /** How many stages the oldest instruction still has to pass. */
  function Rank(c: Core): nat {
    if c.memWb.valid then 0 else if c.exMem.valid then 1 else if c.idEx.valid then 2
    else if c.ifId.valid then 3 else 4
  }

  /** How many cycles the multiplier will still hold EX. */
  function MdRank(e: Env, c: Core): nat {
    if !MuldivStall(c) then 0 else if c.md.phase == Idle then MD_LATENCY + 1 else e.b.mdLeft(c.md) + 1
  }

  /** The measure: cycles until the next retirement, at most. */
  function Distance(e: Env, c: Core): nat { Rank(c) * (MD_LATENCY + 2) + MdRank(e, c) }

  /** Only the multiplier can freeze a core whose memories answer at once. */
  lemma ReadyFreezes(e: Env, s: Sys)
    requires Live(e, s)
    ensures Frozen(s.core, PinsOf(e, s, READY)) <==> MuldivStall(s.core)
  {
  }

  lemma ReadyFrozen(e: Env, s: Sys)
    requires MulDivSound(e.b) && Live(e, s) && MuldivStall(s.core)
    ensures var s' := Step(e, s, READY);
            Rank(s'.core) == Rank(s.core) && MdRank(e, s'.core) < MdRank(e, s.core) && s'.retired == s.retired
  {
    var c := s.core;
    var op := c.idEx.dec.muldivOp;
    ReadyFreezes(e, s);
    MdRuns(e, s);
    if c.md.phase == Idle {
      var m' := e.b.mdStep(c.md, true, op, Fwd1(c), Fwd2(c));
      assert RunsOn(e.b, m', op, Fwd1(c), Fwd2(c), op, Fwd1(c), Fwd2(c));
    }
  }

  /** A core that moves retires an instruction or brings the oldest one closer to
      WB: no stall holds that one back. */
  lemma UnfrozenMoves(e: Env, s: Sys, ch: Choice)
    requires !Frozen(s.core, PinsOf(e, s, ch))
    ensures var s' := Step(e, s, ch);
            if s.core.memWb.valid then |s'.retired| == |s.retired| + 1
            else s'.retired == s.retired && Rank(s'.core) < Rank(s.core)
  {
  }

  /** Every cycle with ready memories retires an instruction or comes closer to it. */
  lemma ReadyStep(e: Env, s: Sys)
    requires MulDivSound(e.b) && Live(e, s)
    ensures var s' := Step(e, s, READY);
            || |s'.retired| == |s.retired| + 1
            || (s'.retired == s.retired && Distance(e, s'.core) < Distance(e, s.core))
  {
    hide Step, PinsOf, Live;
    ReadyFreezes(e, s);
    if MuldivStall(s.core) {
      ReadyFrozen(e, s);
    } else {
      UnfrozenMoves(e, s, READY);
      LiveStep(e, s, READY);
    }
  }

  lemma RunNext(e: Env, s0: Sys, sched: seq<Choice>, ch: Choice)
    ensures Run(e, s0, sched + [ch]) == Step(e, Run(e, s0, sched), ch)
  {
    assert (sched + [ch])[..|sched|] == sched;
  }

  /** From any point of any run, ready memories make the core retire as many
      instructions as one likes. */
  lemma Retires(e: Env, g0: Arch, s0: Sys, sched: seq<Choice>, n: nat) returns (sched': seq<Choice>)
    requires MulDivSound(e.b) && Reset(s0, g0)
    ensures sched <= sched' && |Run(e, s0, sched').retired| >= n
    decreases n - |Run(e, s0, sched).retired|, Distance(e, Run(e, s0, sched).core)
  {
    hide Step, Distance, Run;
    sched' := sched;
    if |Run(e, s0, sched).retired| < n {
      LiveRun(e, g0, s0, sched);
      ReadyStep(e, Run(e, s0, sched));
      RunNext(e, s0, sched, READY);
      sched' := Retires(e, g0, s0, sched + [READY], n);
    }
  }

  // ---- The ID stalls ------------------------------------------------------------

  predicate Stalls(e: Env, c: Core) { LoadUse(e, c) || JalrFwdStall(e, c) }

  /** How often an instruction in ID can still be held back. */
  function StallsLeft(c: Core): nat { if c.idEx.valid then 2 else if c.exMem.valid then 1 else 0 }

  lemma StallStep(e: Env, s: Sys, ch: Choice)
    ensures var s' := Step(e, s, ch);
            && (Stalls(e, s.core) ==> StallsLeft(s.core) > 0)
            && (Frozen(s.core, PinsOf(e, s, ch)) ==> StallsLeft(s'.core) == StallsLeft(s.core))
            && (Stalls(e, s.core) && !Frozen(s.core, PinsOf(e, s, ch)) ==>
                  StallsLeft(s'.core) < StallsLeft(s.core) && s'.core.ifId == s.core.ifId)
  {
  }

  /** Every cycle of the schedule is frozen or holds ID back. */
  predicate Held(e: Env, s: Sys, sched: seq<Choice>) {
    forall k | 0 <= k < |sched| :: HeldAt(e, Run(e, s, sched[..k]), sched[k])
  }

  predicate HeldAt(e: Env, s: Sys, ch: Choice) { Frozen(s.core, PinsOf(e, s, ch)) || Stalls(e, s.core) }

  /** Cycles of the schedule in which the pipeline is not frozen. */
  function Moves(e: Env, s: Sys, sched: seq<Choice>): nat {
    if sched == [] then 0
    else
      var n := |sched| - 1;
      var before := Run(e, s, sched[..n]);
      Moves(e, s, sched[..n]) + if Frozen(before.core, PinsOf(e, before, sched[n])) then 0 else 1
  }

  /** The load-use and JALR stalls hold ID for at most two cycles, however many
      frozen ones come between them. */
  lemma {:induction false} HeldAtMostTwice(e: Env, s: Sys, sched: seq<Choice>)
    requires Held(e, s, sched)
    ensures Moves(e, s, sched) + StallsLeft(Run(e, s, sched).core) <= StallsLeft(s.core) <= 2
  {
    hide Step, Frozen, PinsOf, Stalls, StallsLeft;
    StallsAtMostTwo(s.core);
    if sched != [] {
      var n := |sched| - 1;
      var early := sched[..n];
      forall k | 0 <= k < |early| ensures HeldAt(e, Run(e, s, early[..k]), early[k]) {
        assert early[..k] == sched[..k];
      }
      HeldAtMostTwice(e, s, early);
      assert HeldAt(e, Run(e, s, sched[..n]), sched[n]);
      StallStep(e, Run(e, s, early), sched[n]);
    }
  }

  lemma StallsAtMostTwo(c: Core)
    ensures StallsLeft(c) <= 2
  {}
}
