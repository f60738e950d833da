/** The bimodal branch predictor with its direct-mapped target buffer
    (rtl/common/kronos_bpred.sv), for any table sizes, against the history of the
    branches it has been told about. */
module BranchPredictor {
  import opened Machine

  /** A resolved branch or JAL. */
  datatype Update = Update(pc: Word, taken: bool, target: Word, isJal: bool)

  datatype BtbEntry = BtbEntry(valid: bool, tag: nat, target: Word)

  /** Table indexes start at bit 2 of the address. */
  function Index(entries: nat, pc: Word): (i: nat)
    requires entries > 0
    ensures i < entries
  {
    pc / 4 % entries
  }

  function Tag(entries: nat, pc: Word): nat
    requires entries > 0
  {
    pc / 4 / entries
  }

  /** Index and tag together are the address, but for its two low bits. */
  lemma SlotAndTag(entries: nat, pc: Word, pc': Word)
    requires entries > 0
    ensures Index(entries, pc) == Index(entries, pc') && Tag(entries, pc) == Tag(entries, pc') <==> pc / 4 == pc' / 4
  {
    var a, b := pc / 4, pc' / 4;
    assert a == a / entries * entries + a % entries && b == b / entries * entries + b % entries;
  }

  /** Updates that write the target buffer. */
  predicate Writes(u: Update) { u.taken || u.isJal }

  /** A 2-bit saturating counter. */
  function Saturate(counter: nat, taken: bool): (c: nat)
    requires counter < 4
    ensures c < 4
  {
    if taken then if counter == 3 then 3 else counter + 1
    else if counter == 0 then 0 else counter - 1
  }

  // ---- The specification: what the history says -------------------------------------

  /** The counter at `i`: the conditional outcomes at its index, folded from weakly
      not taken. */
  function Counter(entries: nat, history: seq<Update>, i: nat): (c: nat)
    requires entries > 0
    ensures c < 4
  {
    if history == [] then 1
    else
      var c, u := Counter(entries, history[..|history| - 1], i), history[|history| - 1];
      if !u.isJal && Index(entries, u.pc) == i then Saturate(c, u.taken) else c
  }

  /** Whether update `k` was a branch not taken that found its counter at 01. */
  predicate Weakens(entries: nat, history: seq<Update>, k: nat)
    requires entries > 0 && k < |history|
  {
    !Writes(history[k]) && Counter(entries, history[..k], Index(entries, history[k].pc)) == 1
  }

  /** Update `k` takes the target of `pc` out of the buffer or replaces it. */
  predicate Displaces(entries: nat, slots: nat, history: seq<Update>, k: nat, pc: Word)
    requires entries > 0 && slots > 0 && k < |history|
  {
    if Writes(history[k]) then Index(slots, history[k].pc) == Index(slots, pc)
    else Weakens(entries, history, k) && history[k].pc / 4 == pc / 4
  }

  /** Update `j` is the one whose target the buffer holds for `pc`. */
  ghost predicate Holds(entries: nat, slots: nat, history: seq<Update>, j: nat, pc: Word)
    requires entries > 0 && slots > 0
  {
    && j < |history| && Writes(history[j]) && history[j].pc / 4 == pc / 4
    && forall k | j < k < |history| :: !Displaces(entries, slots, history, k, pc)
  }

  /** The history has a target for `pc`. */
  ghost predicate Remembers(entries: nat, slots: nat, history: seq<Update>, pc: Word, target: Word)
    requires entries > 0 && slots > 0
  {
    exists j: nat :: Holds(entries, slots, history, j, pc) && history[j].target == target
  }

  // ---- The tables as functions of the history ----------------------------------------

  function Entry(entries: nat, slots: nat, history: seq<Update>, i: nat): BtbEntry
    requires entries > 0 && slots > 0
  {
    if history == [] then BtbEntry(false, 0, 0)
    else
      var n := |history| - 1;
      var e, u := Entry(entries, slots, history[..n], i), history[n];
      if Index(slots, u.pc) != i then e
      else if Writes(u) then BtbEntry(true, Tag(slots, u.pc), u.target)
      else if Weakens(entries, history, n) && e.valid && e.tag == Tag(slots, u.pc) then e.(valid := false)
      else e
  }

  predicate Hit(slots: nat, e: BtbEntry, pc: Word)
    requires slots > 0
  {
    e.valid && e.tag == Tag(slots, pc)
  }

  lemma HoldsLonger(entries: nat, slots: nat, history: seq<Update>, j: nat, pc: Word)
    requires entries > 0 && slots > 0 && j < |history| - 1
    ensures Holds(entries, slots, history, j, pc) <==>
            Holds(entries, slots, history[..|history| - 1], j, pc)
            && !Displaces(entries, slots, history, |history| - 1, pc)
  {
    var n := |history| - 1;
    var h := history[..n];
    forall k: nat | j < k < n
      ensures Displaces(entries, slots, h, k, pc) <==> Displaces(entries, slots, history, k, pc)
    {
      assert h[..k] == history[..k];
    }
  }

  /** One more update: it brings the target, or leaves it alone. */
  lemma RemembersLonger(entries: nat, slots: nat, history: seq<Update>, pc: Word, target: Word)
    requires entries > 0 && slots > 0 && history != []
    ensures var n := |history| - 1;
            Remembers(entries, slots, history, pc, target) <==>
              (Writes(history[n]) && history[n].pc / 4 == pc / 4 && history[n].target == target)
              || (Remembers(entries, slots, history[..n], pc, target) && !Displaces(entries, slots, history, n, pc))
  {
    hide Displaces;
    var n := |history| - 1;
    if Remembers(entries, slots, history, pc, target) {
      var j: nat :| Holds(entries, slots, history, j, pc) && history[j].target == target;
      if j < n { HoldsLonger(entries, slots, history, j, pc); }
    }
    if Remembers(entries, slots, history[..n], pc, target) && !Displaces(entries, slots, history, n, pc) {
      var j: nat :| Holds(entries, slots, history[..n], j, pc) && history[..n][j].target == target;
      HoldsLonger(entries, slots, history, j, pc);
    }
    assert Writes(history[n]) && history[n].pc / 4 == pc / 4 ==> Holds(entries, slots, history, n, pc);
  }

  /** A hit in the buffer is a branch of the history that nothing later displaced,
      and the target is that branch's. */
  lemma {:induction false} HitExact(entries: nat, slots: nat, history: seq<Update>, pc: Word, target: Word)
    requires entries > 0 && slots > 0
    ensures var e := Entry(entries, slots, history, Index(slots, pc));
            Hit(slots, e, pc) && e.target == target <==> Remembers(entries, slots, history, pc, target)
  {
    hide Remembers, Weakens, Index, Tag;
    if history == [] {
      Forgets(entries, slots, pc, target);
    } else {
      var n := |history| - 1;
      HitExact(entries, slots, history[..n], pc, target);
      SlotAndTag(slots, history[n].pc, pc);
      RemembersLonger(entries, slots, history, pc, target);
    }
  }

  lemma Forgets(entries: nat, slots: nat, pc: Word, target: Word)
    requires entries > 0 && slots > 0
    ensures !Remembers(entries, slots, [], pc, target)
  {}

  /** A not-taken branch forgets its own target if and only if its counter was at 01. */
  lemma NotTakenForgetsIffAt01(entries: nat, slots: nat, history: seq<Update>, u: Update, target: Word)
    requires entries > 0 && slots > 0 && !Writes(u)
    requires Remembers(entries, slots, history, u.pc, target)
    ensures !Remembers(entries, slots, history + [u], u.pc, target) <==>
            Counter(entries, history, Index(entries, u.pc)) == 1
  {
    hide Remembers, Counter;
    assert (history + [u])[..|history|] == history;
    RemembersLonger(entries, slots, history + [u], u.pc, target);
  }

  // ---- What the documentation promises ------------------------------------------------

  /** A taken branch at 0, an aliasing branch not taken twice, the first not taken. */
  function AliasedHistory(entries: nat, target: Word): seq<Update>
    requires 0 < entries < 0x2000_0000
  {
    var alias := Update(4 * entries, false, 0, false);
    [Update(0, true, target, false), alias, alias, Update(0, false, 0, false)]
  }

  lemma CounterNext(entries: nat, history: seq<Update>, u: Update)
    requires entries > 0 && !u.isJal && Index(entries, u.pc) == 0
    ensures Counter(entries, history + [u], 0) == Saturate(Counter(entries, history, 0), u.taken)
  {
    assert (history + [u])[..|history|] == history;
  }

  /** A branch not taken whose counter is at 00 should lose its entry (section 4.4 of
      docs/architecture.md); it keeps it unless the counter was at 01 just before. */
  lemma SaturatedEntryStays(entries: nat, slots: nat, target: Word)
    requires 0 < entries < 0x2000_0000 && slots > 0
    ensures var h := AliasedHistory(entries, target);
            Counter(entries, h, Index(entries, 0)) == 0 && Remembers(entries, slots, h, 0, target)
  {
    hide Counter, Index;
    var h := AliasedHistory(entries, target);
    AliasIndex(entries);
    AliasedCounters(entries, target);
    assert Holds(entries, slots, h, 0, 0);
  }

  lemma AliasIndex(entries: nat)
    requires 0 < entries < 0x2000_0000
    ensures Index(entries, 0) == 0 == Index(entries, 4 * entries)
  {
    assert 4 * entries / 4 == entries;
  }

  lemma CounterStarts(entries: nat)
    requires entries > 0
    ensures Counter(entries, [], 0) == 1
  {}

  lemma AliasedCounters(entries: nat, target: Word)
    requires 0 < entries < 0x2000_0000
    ensures var h := AliasedHistory(entries, target);
            Counter(entries, h[..3], 0) == 0 && Counter(entries, h, 0) == 0
  {
    var h := AliasedHistory(entries, target);
    hide Counter, Index;
    AliasIndex(entries);
    CounterStarts(entries);
    CounterNext(entries, [], h[0]);
    CounterNext(entries, [h[0]], h[1]);
    CounterNext(entries, [h[0], h[1]], h[2]);
    CounterNext(entries, [h[0], h[1], h[2]], h[3]);
    assert [] + [h[0]] == [h[0]] && [h[0]] + [h[1]] == [h[0], h[1]];
    assert [h[0], h[1]] + [h[2]] == h[..3] == [h[0], h[1], h[2]] && h[..3] + [h[3]] == h;
  }

  // ---- The clocked predictor ---------------------------------------------------------

  class Predictor {
    const counters: array<nat>
    const btb: array<BtbEntry>
    /** The registered update port. */
    var pending: Option<Update>
    /** Every update presented since reset. */
    ghost var seen: seq<Update>

    /** What the tables have taken in: all but the one in the register. */
    ghost function History(): seq<Update>
      reads this
      requires pending.Some? ==> seen != []
    {
      if pending.Some? then seen[..|seen| - 1] else seen
    }

    /** The tables are those of a history. */
    ghost predicate Tables(history: seq<Update>)
      reads counters, btb
    {
      && counters.Length > 0 && btb.Length > 0
      && (forall i | 0 <= i < counters.Length :: counters[i] == Counter(counters.Length, history, i))
      && (forall i | 0 <= i < btb.Length :: btb[i] == Entry(counters.Length, btb.Length, history, i))
    }

    ghost predicate Valid()
      reads this, counters, btb
    {
      (pending.Some? ==> seen != [] && pending.value == seen[|seen| - 1]) && Tables(History())
    }

    constructor (entries: nat, slots: nat)
      requires entries > 0 && slots > 0
      ensures Valid() && seen == [] && counters.Length == entries && btb.Length == slots
      ensures fresh(counters) && fresh(btb)
    {
      counters := new nat[entries](_ => 1);
      btb := new BtbEntry[slots](_ => BtbEntry(false, 0, 0));
      pending := None;
      seen := [];
    }

    /** The prediction for `pc`: taken, to a target. */
    method Predict(pc: Word) returns (taken: bool, target: Word)
      requires Valid()
      ensures taken <==>
              && Counter(counters.Length, History(), Index(counters.Length, pc)) >= 2
              && exists t: Word :: Remembers(counters.Length, btb.Length, History(), pc, t)
      ensures taken ==> Remembers(counters.Length, btb.Length, History(), pc, target)
    {
      var e := btb[Index(btb.Length, pc)];
      taken, target := Hit(btb.Length, e, pc) && counters[Index(counters.Length, pc)] >= 2, e.target;
      forall t: Word ensures Hit(btb.Length, e, pc) && e.target == t <==>
                             Remembers(counters.Length, btb.Length, History(), pc, t) {
        HitExact(counters.Length, btb.Length, History(), pc, t);
      }
      assert taken ==> Remembers(counters.Length, btb.Length, History(), pc, target);
    }

    /** The tables take in one update. */
    method Apply(u: Update, ghost history: seq<Update>)
      requires Tables(history)
      modifies counters, btb
      ensures Tables(history + [u])
    {
      var i, b := Index(counters.Length, u.pc), Index(btb.Length, u.pc);
      var weak := counters[i] == 1;
      if !u.isJal { counters[i] := Saturate(counters[i], u.taken); }
      if u.taken || u.isJal {
        btb[b] := BtbEntry(true, Tag(btb.Length, u.pc), u.target);
      } else if weak && Hit(btb.Length, btb[b], u.pc) {
        btb[b] := btb[b].(valid := false);
      }
      assert (history + [u])[..|history|] == history;
    }

    /** One clock edge: the registered update takes effect, the presented one is
        registered. */
    method Clock(update: Option<Update>)
      requires Valid()
      modifies this, counters, btb
      ensures Valid() && pending == update
      ensures seen == old(seen) + if update.Some? then [update.value] else []
      ensures History() == old(seen)
    {
      if pending.Some? {
        Apply(pending.value, History());
        assert History() + [pending.value] == seen;
      }
      seen := seen + if update.Some? then [update.value] else [];
      pending := update;
      assert History() == old(seen);
    }
  }
}
