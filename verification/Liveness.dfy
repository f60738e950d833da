/** Memories of any latency: as long as no result of the multiplier goes unheard, the
    pipeline retires for ever if and only if the memories answer whatever it needs. */
module Liveness {
  import opened Machine
  import opened Golden
  import opened Pipeline
  import opened System
  import opened Correctness
  import opened Exact
  import opened Progress
  import opened Search

  datatype Channel = FetchGrant | FetchAnswer | DataGrant | DataAnswer

  predicate Gives(ch: Choice, k: Channel) {
    match k
    case FetchGrant => ch.iGnt
    case FetchAnswer => ch.iRvalid
    case DataGrant => ch.dGnt
    case DataAnswer => ch.dRvalid
  }

  predicate MulInEx(c: Core) { c.idEx.valid && c.idEx.dec.isMuldiv }

  /** What a core whose multiplier rests is waiting for: first its data access, then
      the fetch whose answer lets every stage move. */
  function Awaits(c: Core): Channel {
    if LsuReq(c) then if c.lsuWait then DataAnswer else DataGrant
    else if c.fetchOutstanding then FetchAnswer else FetchGrant
  }

  /** A multiplier at work, or about to start, needs no memory. */
  function Needs(c: Core): Option<Channel> {
    if c.md.phase != Idle || (MulInEx(c) && !LsuReq(c)) then None else Some(Awaits(c))
  }

  /** Grants and answers still owed before the next move. */
  function Owed(c: Core): nat {
    match Awaits(c)
    case DataGrant => 4
    case DataAnswer => 3
    case FetchGrant => 2
    case FetchAnswer => 1
  }

  /** Cycles of the multiplier and answers still owed before the next move. */
  function Pending(e: Env, c: Core): nat {
    if c.md.phase != Idle then e.b.mdLeft(c.md)
    else if MulInEx(c) then MD_LATENCY + Owed(c)
    else Owed(c)
  }

  /** The same before the next retirement, at most. */
  function Measure(e: Env, c: Core): nat { Rank(c) * (MD_LATENCY + 5) + Pending(e, c) }

  /** The load/store unit waits for a request that is still there, and a multiplier
      at work has been let through by it. */
  predicate Waiting(e: Env, s: Sys) {
    Live(e, s) && (s.core.lsuWait ==> LsuReq(s.core)) && (s.core.md.phase != Idle ==> !LsuReq(s.core))
  }

  /** The instruction memory answers if the multiplier shows its result. */
  predicate Hears(s: Sys, ch: Choice) { s.core.md.phase == Done ==> FetchValid(s, ch) }

  lemma StepWaiting(e: Env, s: Sys, ch: Choice)
    requires MulDivSound(e.b) && Waiting(e, s)
    ensures Waiting(e, Step(e, s, ch))
  {
    hide Live, MulDivSound, ExTarget, ExRedirect, LoadUse, JalrFwdStall, WriteReg, WbResult, LsuRdata, DataBus;
    LiveStep(e, s, ch);
    if s.core.md.phase == Idle { IdleStarts(e, s, ch); }
  }

  /** The multiplier starts only for a request that no data access holds back. */
  lemma IdleStarts(e: Env, s: Sys, ch: Choice)
    requires MulDivSound(e.b) && s.core.md.phase == Idle
    ensures Step(e, s, ch).core.md.phase != Idle <==> MulInEx(s.core) && !MemStall(s.core, PinsOf(e, s, ch))
  {
    hide NextIfId, NextIdEx, NextExMem, NextMemWb, Controls, WriteReg, WbResult;
    var op := s.core.idEx.dec.muldivOp;
    MdRuns(e, s);
  }

  /** What it needs makes the core retire or lowers the measure. */
  lemma AnswerStep(e: Env, s: Sys, ch: Choice)
    requires MulDivSound(e.b) && Waiting(e, s) && Hears(s, ch)
    requires Needs(s.core).Some? ==> Gives(ch, Needs(s.core).value)
    ensures var s' := Step(e, s, ch);
            || |s'.retired| == |s.retired| + 1
            || (s'.retired == s.retired && Measure(e, s'.core) < Measure(e, s.core))
  {
    hide MulDivSound, Step, Frozen, PinsOf, Waiting, Needs, Gives, Pending, Rank, Hears;
    if Frozen(s.core, PinsOf(e, s, ch)) {
      FrozenAnswer(e, s, ch);
    } else {
      UnfrozenMoves(e, s, ch);
      LittlePending(e, s, ch);
    }
  }

  lemma LittlePending(e: Env, s: Sys, ch: Choice)
    requires MulDivSound(e.b) && Waiting(e, s) && !Frozen(s.core, PinsOf(e, s, ch))
    ensures Pending(e, Step(e, s, ch).core) <= MD_LATENCY + 4
  {
    hide MulDivSound, Step, Frozen, PinsOf, Awaits;
    LiveStep(e, s, ch);
  }

  lemma FrozenAnswer(e: Env, s: Sys, ch: Choice)
    requires MulDivSound(e.b) && Waiting(e, s) && Hears(s, ch) && Frozen(s.core, PinsOf(e, s, ch))
    requires Needs(s.core).Some? ==> Gives(ch, Needs(s.core).value)
    ensures var s' := Step(e, s, ch);
            s'.retired == s.retired && Rank(s'.core) == Rank(s.core) && Pending(e, s'.core) < Pending(e, s.core)
  {
    hide MulDivSound, Step, Rank, Frozen, PinsOf, Pending;
    FrozenKeeps(e, s, ch);
    if s.core.md.phase != Idle {
      FrozenWorks(e, s, ch);
    } else if MulInEx(s.core) && Step(e, s, ch).core.md.phase != Idle {
      FrozenStarts(e, s, ch);
    } else {
      FrozenOwes(e, s, ch);
    }
  }

  /** A multiplier at work comes closer to its end; its result is not missed. */
  lemma FrozenWorks(e: Env, s: Sys, ch: Choice)
    requires MulDivSound(e.b) && Waiting(e, s) && Hears(s, ch) && Frozen(s.core, PinsOf(e, s, ch))
    requires s.core.md.phase != Idle
    ensures Pending(e, Step(e, s, ch).core) < Pending(e, s.core)
  {
    hide NextIfId, NextIdEx, NextExMem, NextMemWb, Controls, WriteReg, WbResult, Owed;
    MdRuns(e, s);
  }

  lemma FrozenStarts(e: Env, s: Sys, ch: Choice)
    requires MulDivSound(e.b) && s.core.md.phase == Idle && MulInEx(s.core) && Step(e, s, ch).core.md.phase != Idle
    ensures Pending(e, Step(e, s, ch).core) < Pending(e, s.core)
  {
    hide NextIfId, NextIdEx, NextExMem, NextMemWb, Controls, WriteReg, WbResult;
    var c := s.core;
    var op := c.idEx.dec.muldivOp;
    MdRuns(e, s);
    var m' := e.b.mdStep(c.md, true, op, Fwd1(c), Fwd2(c));
    assert RunsOn(e.b, m', op, Fwd1(c), Fwd2(c), op, Fwd1(c), Fwd2(c));
  }

  /** A grant or an answer that lets nothing move yet. */
  lemma FrozenOwes(e: Env, s: Sys, ch: Choice)
    requires MulDivSound(e.b) && Waiting(e, s) && Frozen(s.core, PinsOf(e, s, ch)) && s.core.md.phase == Idle
    requires Step(e, s, ch).core.md.phase == Idle || !MulInEx(s.core)
    requires Needs(s.core).Some? ==> Gives(ch, Needs(s.core).value)
    ensures Pending(e, Step(e, s, ch).core) < Pending(e, s.core)
  {
    hide MulDivSound, ExTarget, ExRedirect, LoadUse, JalrFwdStall, WriteReg, WbResult, NextMd, LsuRdata, DataBus;
    IdleStarts(e, s, ch);
  }

  /** Without it the core stays frozen and goes on needing the same. */
  lemma SilentStep(e: Env, s: Sys, ch: Choice)
    requires MulDivSound(e.b) && Waiting(e, s) && Needs(s.core).Some? && !Gives(ch, Needs(s.core).value)
    ensures var s' := Step(e, s, ch);
            && s'.retired == s.retired && Needs(s'.core) == Needs(s.core) && Measure(e, s'.core) == Measure(e, s.core)
  {
    hide MulDivSound, ExTarget, ExRedirect, LoadUse, JalrFwdStall, WriteReg, WbResult, NextMd, LsuRdata, DataBus;
    IdleStarts(e, s, ch);
  }

  lemma FrozenKeeps(e: Env, s: Sys, ch: Choice)
    requires Frozen(s.core, PinsOf(e, s, ch))
    ensures var s' := Step(e, s, ch);
            s'.core.idEx == s.core.idEx && s'.retired == s.retired && Rank(s'.core) == Rank(s.core)
  {
    hide ExTarget, ExRedirect, LoadUse, JalrFwdStall, WriteReg, WbResult, NextMd, LsuRdata, DataBus;
  }

  // ---- Infinite schedules ---------------------------------------------------------

  /** The state after `t` cycles. */
  function StateAt(e: Env, s0: Sys, schedule: nat -> Choice, t: nat): Sys {
    if t == 0 then s0 else Step(e, StateAt(e, s0, schedule, t - 1), schedule(t - 1))
  }

  lemma {:induction false} StateAtIsRun(e: Env, s0: Sys, schedule: nat -> Choice, t: nat)
    ensures StateAt(e, s0, schedule, t) == Run(e, s0, seq(t, i requires 0 <= i => schedule(i)))
  {
    hide Step;
    var sched := seq(t, i requires 0 <= i => schedule(i));
    if t > 0 {
      assert sched[..t - 1] == seq(t - 1, i requires 0 <= i => schedule(i));
      StateAtIsRun(e, s0, schedule, t - 1);
    }
  }

  /** `n` cycles on, the memories give what the core needs at `t`. */
  predicate GivenAfter(e: Env, s0: Sys, schedule: nat -> Choice, t: nat, n: nat) {
    var need := Needs(StateAt(e, s0, schedule, t).core);
    need.Some? ==> Gives(schedule(t + n), need.value)
  }

  ghost predicate GivenSometime(e: Env, s0: Sys, schedule: nat -> Choice, t: nat) {
    exists n: nat :: GivenAfter(e, s0, schedule, t, n)
  }

  /** The memories answer everything the core needs, however late. */
  ghost predicate Responsive(e: Env, s0: Sys, schedule: nat -> Choice) {
    forall t: nat :: GivenSometime(e, s0, schedule, t)
  }

  predicate HeardAt(e: Env, s0: Sys, schedule: nat -> Choice, t: nat) {
    Hears(StateAt(e, s0, schedule, t), schedule(t))
  }

  /** The instruction memory is never silent while the multiplier shows its result. */
  ghost predicate Heard(e: Env, s0: Sys, schedule: nat -> Choice) {
    forall t: nat :: HeardAt(e, s0, schedule, t)
  }

  predicate HasRetired(e: Env, s0: Sys, schedule: nat -> Choice, n: nat, t: nat) {
    |StateAt(e, s0, schedule, t).retired| >= n
  }

  ghost predicate Reaches(e: Env, s0: Sys, schedule: nat -> Choice, n: nat) {
    exists t: nat :: HasRetired(e, s0, schedule, n, t)
  }

  /** Every number of instructions is retired at some time. */
  ghost predicate RetiresForever(e: Env, s0: Sys, schedule: nat -> Choice) {
    forall n: nat :: Reaches(e, s0, schedule, n)
  }

  lemma {:induction false} WaitingAt(e: Env, s0: Sys, schedule: nat -> Choice, t: nat)
    requires MulDivSound(e.b) && Waiting(e, s0)
    ensures Waiting(e, StateAt(e, s0, schedule, t))
  {
    hide Step, Waiting, MulDivSound;
    if t > 0 {
      WaitingAt(e, s0, schedule, t - 1);
      StepWaiting(e, StateAt(e, s0, schedule, t - 1), schedule(t - 1));
    }
  }

  /** While it is not given, nothing retires and the need is the same. */
  lemma {:induction false} Stuck(e: Env, s0: Sys, schedule: nat -> Choice, t: nat, k: nat)
    requires MulDivSound(e.b) && Waiting(e, s0)
    requires forall n: nat | n < k :: !GivenAfter(e, s0, schedule, t, n)
    ensures var s, s' := StateAt(e, s0, schedule, t), StateAt(e, s0, schedule, t + k);
            s'.retired == s.retired && Needs(s'.core) == Needs(s.core) && Measure(e, s'.core) == Measure(e, s.core)
    decreases k
  {
    hide Step, Waiting, Measure, Needs, Gives, MulDivSound;
    if k > 0 {
      Stuck(e, s0, schedule, t, k - 1);
      WaitingAt(e, s0, schedule, t + k - 1);
      assert !GivenAfter(e, s0, schedule, t, k - 1);
      SilentStep(e, StateAt(e, s0, schedule, t + k - 1), schedule(t + k - 1));
    }
  }

  lemma FirstGiven(e: Env, s0: Sys, schedule: nat -> Choice, t: nat) returns (first: nat)
    requires GivenSometime(e, s0, schedule, t)
    ensures GivenAfter(e, s0, schedule, t, first)
    ensures forall n: nat | n < first :: !GivenAfter(e, s0, schedule, t, n)
  {
    hide GivenAfter;
    var bound: nat :| GivenAfter(e, s0, schedule, t, bound);
    var given := (n: nat) => GivenAfter(e, s0, schedule, t, n);
    first := Least(given, bound);
    forall n: nat | n < first ensures !GivenAfter(e, s0, schedule, t, n) { assert !given(n); }
  }

  /** The next answer after `t`, and what it does. */
  lemma NextAnswer(e: Env, s0: Sys, schedule: nat -> Choice, t: nat) returns (t': nat)
    requires MulDivSound(e.b) && Waiting(e, s0) && Heard(e, s0, schedule) && Responsive(e, s0, schedule)
    ensures var s, s' := StateAt(e, s0, schedule, t), StateAt(e, s0, schedule, t');
            || |s'.retired| == |s.retired| + 1
            || (s'.retired == s.retired && Measure(e, s'.core) < Measure(e, s.core))
  {
    hide Step, Waiting, Needs, Gives, MulDivSound, Measure, Hears;
    assert GivenSometime(e, s0, schedule, t);
    var n := FirstGiven(e, s0, schedule, t);
    Stuck(e, s0, schedule, t, n);
    WaitingAt(e, s0, schedule, t + n);
    assert HeardAt(e, s0, schedule, t + n);
    t' := t + n + 1;
    AnswerStep(e, StateAt(e, s0, schedule, t + n), schedule(t + n));
  }

  lemma {:induction false} RetireFrom(e: Env, s0: Sys, schedule: nat -> Choice, t: nat, n: nat) returns (t': nat)
    requires MulDivSound(e.b) && Waiting(e, s0) && Heard(e, s0, schedule) && Responsive(e, s0, schedule)
    ensures HasRetired(e, s0, schedule, n, t')
    decreases n - |StateAt(e, s0, schedule, t).retired|, Measure(e, StateAt(e, s0, schedule, t).core)
  {
    hide Step, Waiting, Measure, StateAt, Heard, Responsive, MulDivSound;
    t' := t;
    if !HasRetired(e, s0, schedule, n, t) {
      t' := NextAnswer(e, s0, schedule, t);
      t' := RetireFrom(e, s0, schedule, t', n);
    }
  }

  lemma {:induction false} RetiredGrows(e: Env, s0: Sys, schedule: nat -> Choice, t: nat, t': nat)
    requires t <= t'
    ensures |StateAt(e, s0, schedule, t).retired| <= |StateAt(e, s0, schedule, t').retired|
    decreases t' - t
  {
    hide NextCore, Frozen, PinsOf, DataAccepted;
    if t < t' { RetiredGrows(e, s0, schedule, t, t' - 1); }
  }

  lemma RetirementNeedsAnswer(e: Env, s0: Sys, schedule: nat -> Choice, t: nat)
    requires MulDivSound(e.b) && Waiting(e, s0) && RetiresForever(e, s0, schedule)
    ensures GivenSometime(e, s0, schedule, t)
  {
    hide StateAt, Waiting, Needs, Measure, MulDivSound;
    var n := |StateAt(e, s0, schedule, t).retired| + 1;
    assert Reaches(e, s0, schedule, n);
    var end: nat :| HasRetired(e, s0, schedule, n, end);
    if end < t {
      RetiredGrows(e, s0, schedule, end, t);
    } else if !GivenSometime(e, s0, schedule, t) {
      Stuck(e, s0, schedule, t, end - t);
    }
  }

  /** Any program, M instructions included, on any schedule that leaves no result of
      the multiplier unheard: every instruction retires in the end if and only if
      every grant and answer that is needed comes in the end. */
  lemma ForeverIffResponsive(e: Env, s0: Sys, schedule: nat -> Choice)
    requires MulDivSound(e.b) && Waiting(e, s0) && Heard(e, s0, schedule)
    ensures RetiresForever(e, s0, schedule) <==> Responsive(e, s0, schedule)
  {
    hide Waiting, Heard, GivenSometime, HasRetired, MulDivSound;
    if RetiresForever(e, s0, schedule) {
      forall t: nat ensures GivenSometime(e, s0, schedule, t) { RetirementNeedsAnswer(e, s0, schedule, t); }
    }
    if Responsive(e, s0, schedule) {
      forall n: nat ensures Reaches(e, s0, schedule, n) {
        var t := RetireFrom(e, s0, schedule, 0, n);
      }
    }
  }

  lemma ReadyGives(k: Channel)
    ensures Gives(READY, k)
  {}

  /** Memories that answer at once are responsive and miss nothing. */
  lemma ReadyResponds(e: Env, s0: Sys)
    requires MulDivSound(e.b) && Waiting(e, s0)
    ensures Responsive(e, s0, t => READY) && Heard(e, s0, t => READY)
  {
    hide StateAt, Needs, MulDivSound;
    var schedule: nat -> Choice := t => READY;
    forall t: nat ensures GivenSometime(e, s0, schedule, t) && HeardAt(e, s0, schedule, t) {
      var need := Needs(StateAt(e, s0, schedule, t).core);
      if need.Some? { ReadyGives(need.value); }
      assert GivenAfter(e, s0, schedule, t, 0);
      WaitingAt(e, s0, schedule, t);
    }
  }

  // ---- The golden run -------------------------------------------------------------------

  lemma TracksAt(e: Env, g0: Arch, s0: Sys, schedule: nat -> Choice, t: nat)
    requires Context(e, g0) && Reset(s0, g0) && HazardFree(e, g0)
    ensures Tracks(e, g0, StateAt(e, s0, schedule, t)) && RetiresGolden(e, g0, StateAt(e, s0, schedule, t))
  {
    hide Step, Tracks, Context, Reset, HazardFree, StateAt, Run;
    StateAtIsRun(e, s0, schedule, t);
    HazardFreeRun(e, g0, s0, seq(t, i requires 0 <= i => schedule(i)));
    TracksGolden(e, g0, StateAt(e, s0, schedule, t));
  }

  lemma TracksGolden(e: Env, g0: Arch, s: Sys)
    requires Tracks(e, g0, s)
    ensures RetiresGolden(e, g0, s)
  {}

  lemma ResetWaiting(e: Env, g0: Arch, s0: Sys)
    requires Reset(s0, g0)
    ensures Waiting(e, s0)
  {}

  /** A legal, hazard-free program of which no M result goes unheard: what the pipeline
      retires is always a prefix of the golden run, and all of it comes if and only
      if the memories answer. */
  lemma GoldenForever(e: Env, g0: Arch, s0: Sys, schedule: nat -> Choice)
    requires Context(e, g0) && Reset(s0, g0) && HazardFree(e, g0) && Heard(e, s0, schedule)
    ensures forall t: nat :: RetiresGolden(e, g0, StateAt(e, s0, schedule, t))
    ensures RetiresForever(e, s0, schedule) <==> Responsive(e, s0, schedule)
  {
    hide StateAt, Context, Reset, HazardFree, RetiresForever, Responsive, Heard, RetiresGolden, MulDivSound;
    forall t: nat ensures RetiresGolden(e, g0, StateAt(e, s0, schedule, t)) { TracksAt(e, g0, s0, schedule, t); }
    ResetWaiting(e, g0, s0);
    SoundContext(e, g0);
    ForeverIffResponsive(e, s0, schedule);
  }

  // ---- Programs without M instructions ------------------------------------------------

  predicate PlainAt(e: Env, g0: Arch, n: nat) { !Instr(e, At(e, g0, n)).isMuldiv }

  ghost predicate MulFree(e: Env, g0: Arch) { forall n: nat :: PlainAt(e, g0, n) }

  lemma TracksEx(e: Env, g0: Arch, s: Sys)
    requires Tracks(e, g0, s) && s.core.idEx.valid
    ensures s.core.idEx.dec == Instr(e, At(e, g0, ExPos(s)))
  {
    hide Next, At;
    StatesAt(e, g0, s);
  }

  /** Without M instructions there is nothing to hear. */
  lemma MulFreeHeard(e: Env, g0: Arch, s0: Sys, schedule: nat -> Choice)
    requires Context(e, g0) && Reset(s0, g0) && HazardFree(e, g0) && MulFree(e, g0)
    ensures Heard(e, s0, schedule)
  {
    hide StateAt, Tracks, Context, Reset, HazardFree, MulDivSound, RetiresGolden, At;
    ResetWaiting(e, g0, s0);
    SoundContext(e, g0);
    forall t: nat ensures HeardAt(e, s0, schedule, t) {
      var s := StateAt(e, s0, schedule, t);
      WaitingAt(e, s0, schedule, t);
      TracksAt(e, g0, s0, schedule, t);
      assert PlainAt(e, g0, ExPos(s));
      if s.core.idEx.valid { TracksEx(e, g0, s); }
    }
  }

  // ---- An M instruction can be kept from retiring ----------------------------------------

  /** The instruction memory is silent in just the cycle in which the multiplier
      holds its result. */
  function Starving(c: Core): Choice { Choice(true, c.md.phase != Done, true, true) }

  function Starved(e: Env, s: Sys, i: nat): Sys {
    if i == 0 then s else Step(e, Starved(e, s, i - 1), Starving(Starved(e, s, i - 1).core))
  }

  lemma StarvingFreezes(e: Env, s: Sys)
    requires MulInEx(s.core)
    ensures Frozen(s.core, PinsOf(e, s, Starving(s.core)))
  {}

  /** The result comes for one cycle, the frozen pipeline misses it, and the unit
      starts again: EX never moves. */
  lemma {:induction false} StarvedStays(e: Env, s: Sys, i: nat)
    requires MulInEx(s.core)
    ensures MulInEx(Starved(e, s, i).core) && Starved(e, s, i).retired == s.retired
  {
    hide Step, Frozen, PinsOf, Starving;
    if i > 0 {
      var before := Starved(e, s, i - 1);
      StarvedStays(e, s, i - 1);
      StarvingFreezes(e, before);
      FrozenKeeps(e, before, Starving(before.core));
    }
  }

  /** The instruction memory is not silent twice in a row. */
  lemma SilentOnce(e: Env, s: Sys, i: nat)
    requires MulDivSound(e.b) && MulInEx(s.core)
    ensures Starving(Starved(e, s, i).core) == READY || Starving(Starved(e, s, i + 1).core) == READY
  {
    hide ExTarget, ExRedirect, LoadUse, JalrFwdStall, WriteReg, WbResult, LsuRdata, DataBus;
    var c := Starved(e, s, i).core;
    var op := c.idEx.dec.muldivOp;
    assert RunsOn(e.b, c.md, op, Fwd1(c), Fwd2(c), op, Fwd1(c), Fwd2(c));
  }

  /** First the given choices, then starving. */
  function ThenStarve(e: Env, s0: Sys, sched: seq<Choice>): nat -> Choice {
    t => if 0 <= t < |sched| then sched[t]
         else if t >= 0 then Starving(Starved(e, Run(e, s0, sched), t - |sched|).core) else READY
  }

  lemma {:induction false} ThenStarveAt(e: Env, s0: Sys, sched: seq<Choice>, t: nat)
    ensures var s := StateAt(e, s0, ThenStarve(e, s0, sched), t);
            if t <= |sched| then s == Run(e, s0, sched[..t]) else s == Starved(e, Run(e, s0, sched), t - |sched|)
  {
    hide Step, Starving;
    if t > 0 {
      ThenStarveAt(e, s0, sched, t - 1);
      if t <= |sched| {
        assert sched[..t][..t - 1] == sched[..t - 1];
      } else {
        assert sched[..|sched|] == sched;
      }
    }
  }

  lemma StarvingNext(e: Env, s0: Sys, sched: seq<Choice>, t: nat) returns (ready: nat)
    requires MulDivSound(e.b) && MulInEx(Run(e, s0, sched).core)
    ensures ready >= t && ThenStarve(e, s0, sched)(ready) == READY
  {
    hide MulDivSound, Run, Starving, Starved, MulInEx;
    ready := if t < |sched| then |sched| else t;
    SilentOnce(e, Run(e, s0, sched), ready - |sched|);
    if ThenStarve(e, s0, sched)(ready) != READY { ready := ready + 1; }
  }

  lemma StarvingResponds(e: Env, s0: Sys, sched: seq<Choice>)
    requires MulDivSound(e.b) && MulInEx(Run(e, s0, sched).core)
    ensures Responsive(e, s0, ThenStarve(e, s0, sched))
  {
    hide MulDivSound, MulInEx, ThenStarve, StateAt, Needs, Run, Gives;
    forall t: nat ensures GivenSometime(e, s0, ThenStarve(e, s0, sched), t) {
      var ready := StarvingNext(e, s0, sched, t);
      var need := Needs(StateAt(e, s0, ThenStarve(e, s0, sched), t).core);
      if need.Some? { ReadyGives(need.value); }
      assert GivenAfter(e, s0, ThenStarve(e, s0, sched), t, ready - t);
    }
  }

  lemma StarvingStops(e: Env, s0: Sys, sched: seq<Choice>)
    requires MulInEx(Run(e, s0, sched).core)
    ensures !RetiresForever(e, s0, ThenStarve(e, s0, sched))
  {
    hide StateAt, Run, Starved, MulInEx;
    var schedule, s := ThenStarve(e, s0, sched), Run(e, s0, sched);
    var n := |s.retired| + 1;
    forall t: nat ensures !HasRetired(e, s0, schedule, n, t) {
      if t <= |sched| {
        RetiredGrows(e, s0, schedule, t, |sched|);
        ThenStarveAt(e, s0, sched, |sched|);
        assert sched[..|sched|] == sched;
      } else {
        ThenStarveAt(e, s0, sched, t);
        StarvedStays(e, s, t - |sched|);
      }
    }
    assert !Reaches(e, s0, schedule, n);
  }

  ghost predicate AnswersSuffice(e: Env, s0: Sys, schedule: nat -> Choice) {
    Responsive(e, s0, schedule) ==> RetiresForever(e, s0, schedule)
  }

  /** The exact condition: memories that answer everything make every instruction of
      a hazard-free program retire if and only if the golden run has no M instruction. */
  lemma AnswersSufficeIffMulFree(e: Env, g0: Arch, s0: Sys)
    requires Context(e, g0) && Reset(s0, g0) && HazardFree(e, g0)
    ensures (forall schedule: nat -> Choice :: AnswersSuffice(e, s0, schedule)) <==> MulFree(e, g0)
  {
    hide Context, Reset, HazardFree, PlainAt, Responsive, RetiresForever, ThenStarve, Heard, StateAt;
    if MulFree(e, g0) {
      forall schedule: nat -> Choice ensures AnswersSuffice(e, s0, schedule) {
        MulFreeHeard(e, g0, s0, schedule);
        GoldenForever(e, g0, s0, schedule);
      }
    } else {
      var k: nat :| !PlainAt(e, g0, k);
      var sched := ReachMul(e, g0, s0, k);
      SoundContext(e, g0);
      StarvingResponds(e, s0, sched);
      StarvingStops(e, s0, sched);
      assert !AnswersSuffice(e, s0, ThenStarve(e, s0, sched));
    }
  }

  lemma ReachMul(e: Env, g0: Arch, s0: Sys, k: nat) returns (sched: seq<Choice>)
    requires Context(e, g0) && Reset(s0, g0) && HazardFree(e, g0) && !PlainAt(e, g0, k)
    ensures MulInEx(Run(e, s0, sched).core)
  {
    hide Context, Reset, Tracks, Before, At, Step;
    StartTracks(e, g0, s0, k);
    assert Run(e, s0, []) == s0;
    sched := ReachEx(e, g0, s0, [], k);
    TracksEx(e, g0, Run(e, s0, sched));
  }
}
