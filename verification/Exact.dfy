/** The pipeline retires the golden run under every schedule if and only if the
    golden run meets no hazard. */
module Exact {
  import opened Machine
  import opened Golden
  import opened Pipeline
  import opened System
  import opened Correctness
  import opened Exactness
  import opened Progress

  predicate Tracks(e: Env, g0: Arch, s: Sys) { Refines(e, g0, s) && Spaced(e, g0, s) }

  ghost predicate HazardFree(e: Env, g0: Arch) { forall k: nat :: !HazardAt(e, g0, k) }

  predicate RetiresGolden(e: Env, g0: Arch, s: Sys) { s.retired == Retired(e, g0, |s.retired|) }

  lemma StepTracks(e: Env, g0: Arch, s: Sys, ch: Choice)
    requires Context(e, g0) && Tracks(e, g0, s)
    requires s.core.idEx.valid ==> !HazardAt(e, g0, ExPos(s))
    ensures Tracks(e, g0, Step(e, s, ch))
  {
    hide Step, Refines, Spaced, HazardAt, LostRedirect, Frozen, PinsOf;
    LostIffHazard(e, g0, s, ch);
    StepRefines(e, g0, s, ch);
    StepSpaced(e, g0, s, ch);
  }

  /** Without a hazard no schedule can lose a redirect: the whole run refines. */
  lemma {:induction false} HazardFreeRun(e: Env, g0: Arch, s0: Sys, sched: seq<Choice>)
    requires Context(e, g0) && Reset(s0, g0) && HazardFree(e, g0)
    ensures Tracks(e, g0, Run(e, s0, sched))
  {
    hide Step, HazardAt;
    if sched == [] {
      ResetRefines(e, g0, s0);
      ResetSpaced(e, g0, s0);
    } else {
      HazardFreeRun(e, g0, s0, sched[..|sched| - 1]);
      StepTracks(e, g0, Run(e, s0, sched[..|sched| - 1]), sched[|sched| - 1]);
    }
  }

  // ---- A hazard is fatal --------------------------------------------------------

  /** Instruction `k` has not left EX. */
  predicate Before(s: Sys, k: nat) { IdPos(s) <= k || (s.core.idEx.valid && ExPos(s) == k) }

  lemma BeforeStep(e: Env, s: Sys, ch: Choice, k: nat)
    requires IdPos(s) <= k
    ensures Before(Step(e, s, ch), k)
  {
    if Frozen(s.core, PinsOf(e, s, ch)) { FrontWaits(e, s, ch); } else { FrontMoves(e, s, ch); }
  }

  /** The hazardous instruction is a jump or a branch, so nothing freezes EX. */
  lemma HazardLost(e: Env, g0: Arch, s: Sys, k: nat)
    requires Context(e, g0) && Tracks(e, g0, s) && Live(e, s)
    requires s.core.idEx.valid && ExPos(s) == k && HazardAt(e, g0, k)
    ensures LostRedirect(e, s, READY)
  {
    ReadyFreezes(e, s);
    NotMuldiv(e, g0, s);
    hide Next, At, Refines, Spaced, LostRedirect, Frozen, PinsOf, HazardAt;
    LostIffHazard(e, g0, s, READY);
  }

  lemma NotMuldiv(e: Env, g0: Arch, s: Sys)
    requires Context(e, g0) && Refines(e, g0, s) && s.core.idEx.valid && RedirectsAt(e, At(e, g0, ExPos(s)))
    ensures !MuldivStall(s.core)
  {
    hide Next, At;
    StatesAt(e, g0, s);
    GoodAt(e, g0, ExPos(s));
  }

  /** With ready memories and no hazard on the way instruction `k` comes to EX. */
  lemma ReachEx(e: Env, g0: Arch, s0: Sys, sched: seq<Choice>, k: nat) returns (sched': seq<Choice>)
    requires Context(e, g0) && Reset(s0, g0)
    requires Tracks(e, g0, Run(e, s0, sched)) && Before(Run(e, s0, sched), k)
    requires forall j: nat :: j < k ==> !HazardAt(e, g0, j)
    ensures var s := Run(e, s0, sched'); Tracks(e, g0, s) && s.core.idEx.valid && ExPos(s) == k
    decreases k + 1 - |Run(e, s0, sched).retired|, Distance(e, Run(e, s0, sched).core)
  {
    hide Step, Run, Tracks, HazardAt, Distance, Live;
    var s := Run(e, s0, sched);
    if s.core.idEx.valid && ExPos(s) == k {
      sched' := sched;
    } else {
      LiveRun(e, g0, s0, sched);
      StepTracks(e, g0, s, READY);
      BeforeStep(e, s, READY, k);
      ReadyStep(e, s);
      RunNext(e, s0, sched, READY);
      sched' := ReachEx(e, g0, s0, sched + [READY], k);
    }
  }

  /** At the first hazard the redirect is lost. */
  lemma ReachLost(e: Env, g0: Arch, s0: Sys, sched: seq<Choice>, k: nat) returns (sched': seq<Choice>)
    requires Context(e, g0) && Reset(s0, g0)
    requires Tracks(e, g0, Run(e, s0, sched)) && Before(Run(e, s0, sched), k)
    requires HazardAt(e, g0, k) && forall j: nat :: j < k ==> !HazardAt(e, g0, j)
    ensures var s := Run(e, s0, sched');
            Tracks(e, g0, s) && s.core.idEx.valid && ExPos(s) == k && LostRedirect(e, s, READY)
  {
    hide Step, Run, Tracks, HazardAt, LostRedirect, Live;
    sched' := ReachEx(e, g0, s0, sched, k);
    LiveRun(e, g0, s0, sched');
    HazardLost(e, g0, Run(e, s0, sched'), k);
  }

  /** The instruction fetched from `pc` stands at position `pos` and nothing can
      remove it: it is past ID, or in ID behind an empty EX, or has retired. */
  predicate Carries(s: Sys, pos: nat, pc: Word) {
    var c := s.core;
    || (!c.idEx.valid && c.ifId.valid && IdPos(s) == pos && c.ifId.pc == pc)
    || (c.idEx.valid && ExPos(s) == pos && c.idEx.pc == pc)
    || (c.exMem.valid && MemPos(s) == pos && c.exMem.pc == pc)
    || (c.memWb.valid && WbPos(s) == pos && c.memWb.pc4 == Add32(pc, 4))
    || (|s.retired| > pos && s.retired[pos].pc4 == Add32(pc, 4))
  }

  lemma CarriesFront(e: Env, s: Sys, ch: Choice, pos: nat, pc: Word)
    requires var c := s.core;
             || (!c.idEx.valid && c.ifId.valid && IdPos(s) == pos && c.ifId.pc == pc)
             || (c.idEx.valid && ExPos(s) == pos && c.idEx.pc == pc)
    ensures Carries(Step(e, s, ch), pos, pc)
  {
    hide ExTarget, WriteReg, WbResult, NextMd, LsuRdata, DataBus;
  }

  lemma CarriesBack(e: Env, s: Sys, ch: Choice, pos: nat, pc: Word)
    requires var c := s.core;
             || (c.exMem.valid && MemPos(s) == pos && c.exMem.pc == pc)
             || (c.memWb.valid && WbPos(s) == pos && c.memWb.pc4 == Add32(pc, 4))
    ensures Carries(Step(e, s, ch), pos, pc)
  {
    hide ExTarget, ExRedirect, LoadUse, JalrFwdStall, WriteReg, WbResult, NextMd, LsuRdata, DataBus, NextIfId, NextIdEx;
  }

  lemma CarriesStep(e: Env, s: Sys, ch: Choice, pos: nat, pc: Word)
    requires Carries(s, pos, pc)
    ensures Carries(Step(e, s, ch), pos, pc)
  {
    hide NextCore, Frozen, PinsOf, WbResult, DataBus, Add32;
    if |s.retired| <= pos {
      var c := s.core;
      if (c.exMem.valid && MemPos(s) == pos && c.exMem.pc == pc)
         || (c.memWb.valid && WbPos(s) == pos && c.memWb.pc4 == Add32(pc, 4)) {
        CarriesBack(e, s, ch, pos, pc);
      } else {
        CarriesFront(e, s, ch, pos, pc);
      }
    }
  }

  lemma CarriesRetires(s: Sys, pos: nat, pc: Word)
    requires Carries(s, pos, pc) && |s.retired| > pos
    ensures s.retired[pos].pc4 == Add32(pc, 4)
  {
  }

  lemma Surfaces(e: Env, g0: Arch, s0: Sys, sched: seq<Choice>, pos: nat, pc: Word) returns (sched': seq<Choice>)
    requires MulDivSound(e.b) && Reset(s0, g0) && Carries(Run(e, s0, sched), pos, pc)
    ensures var s := Run(e, s0, sched'); |s.retired| > pos && s.retired[pos].pc4 == Add32(pc, 4)
    decreases pos + 1 - |Run(e, s0, sched).retired|, Distance(e, Run(e, s0, sched).core)
  {
    hide Step, Run, Carries, Distance;
    sched' := sched;
    var s := Run(e, s0, sched);
    if |s.retired| > pos {
      CarriesRetires(s, pos, pc);
    } else {
      LiveRun(e, g0, s0, sched);
      ReadyStep(e, s);
      CarriesStep(e, s, READY, pos, pc);
      RunNext(e, s0, sched, READY);
      sched' := Surfaces(e, g0, s0, sched + [READY], pos, pc);
    }
  }

  /** After the loss the wrong-path JALR stands where the target should. */
  lemma LostCarries(e: Env, g0: Arch, s: Sys)
    requires Context(e, g0) && Tracks(e, g0, s) && s.core.idEx.valid && LostRedirect(e, s, READY)
    ensures Carries(Step(e, s, READY), ExPos(s) + 1, Add32(At(e, g0, ExPos(s)).pc, 4))
  {
    hide Next, At;
    StatesAt(e, g0, s);
    FrontMoves(e, s, READY);
  }

  lemma {:induction false} RetiredIndex(e: Env, g0: Arch, n: nat, i: nat)
    requires i < n
    ensures Retired(e, g0, n)[i] == RetireOf(e, At(e, g0, i))
  {
    hide RetireOf, At;
    if i < n - 1 { RetiredIndex(e, g0, n - 1, i); }
  }

  lemma FirstHazard(e: Env, g0: Arch, k: nat) returns (first: nat)
    requires HazardAt(e, g0, k)
    ensures HazardAt(e, g0, first) && forall j: nat :: j < first ==> !HazardAt(e, g0, j)
  {
    hide HazardAt;
    first := k;
    if j: nat :| j < k && HazardAt(e, g0, j) { first := FirstHazard(e, g0, j); }
  }

  /** A retirement at the fall-through address of a jump that goes elsewhere is not golden. */
  lemma WrongPathShows(e: Env, g0: Arch, s: Sys, k: nat)
    requires NextPc(e, At(e, g0, k)) != Add32(At(e, g0, k).pc, 4)
    requires |s.retired| > k + 1 && s.retired[k + 1].pc4 == Add32(Add32(At(e, g0, k).pc, 4), 4)
    ensures !RetiresGolden(e, g0, s)
  {
    hide At, Retired, NextPc, WriteBack;
    RetiredIndex(e, g0, |s.retired|, k + 1);
    AtAfter(e, g0, k, true);
  }

  /** A hazard in the golden run has a schedule under which the pipeline retires
      something else than the golden run does. */
  lemma HazardDiverges(e: Env, g0: Arch, s0: Sys, k: nat) returns (sched: seq<Choice>)
    requires Context(e, g0) && Reset(s0, g0) && HazardAt(e, g0, k)
    ensures !RetiresGolden(e, g0, Run(e, s0, sched))
  {
    var first := FirstHazard(e, g0, k);
    assert NextPc(e, At(e, g0, first)) != Add32(At(e, g0, first).pc, 4);
    hide At, Step, HazardAt, Tracks, LostRedirect, Carries, NextPc, Reset, Context, RetiresGolden;
    StartTracks(e, g0, s0, first);
    assert Run(e, s0, []) == s0;
    hide Run;
    var upTo := ReachLost(e, g0, s0, [], first);
    LostCarries(e, g0, Run(e, s0, upTo));
    RunNext(e, s0, upTo, READY);
    SoundContext(e, g0);
    sched := Surfaces(e, g0, s0, upTo + [READY], first + 1, Add32(At(e, g0, first).pc, 4));
    WrongPathShows(e, g0, Run(e, s0, sched), first);
  }

  lemma SoundContext(e: Env, g0: Arch)
    requires Context(e, g0)
    ensures MulDivSound(e.b)
  {
  }

  lemma StartTracks(e: Env, g0: Arch, s0: Sys, k: nat)
    requires Context(e, g0) && Reset(s0, g0)
    ensures Tracks(e, g0, s0) && Before(s0, k)
  {
    ResetRefines(e, g0, s0);
    ResetSpaced(e, g0, s0);
  }

  /** The exact condition: the pipeline retires the golden run under every
      schedule if and only if the golden run meets no hazard. */
  lemma RetiresGoldenIffHazardFree(e: Env, g0: Arch, s0: Sys)
    requires Context(e, g0) && Reset(s0, g0)
    ensures (forall sched: seq<Choice> :: RetiresGolden(e, g0, Run(e, s0, sched))) <==> HazardFree(e, g0)
  {
    hide HazardAt, Run;
    if HazardFree(e, g0) {
      forall sched: seq<Choice> ensures RetiresGolden(e, g0, Run(e, s0, sched)) {
        HazardFreeRun(e, g0, s0, sched);
      }
    } else {
      var k: nat :| HazardAt(e, g0, k);
      var sched := HazardDiverges(e, g0, s0, k);
    }
  }
}
