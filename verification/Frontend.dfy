/** The stream parser of the frontend: fetch buffer and predecode
    (rtl/common/kronos_predecode.sv) cut a stream of words into 16- and 32-bit
    instructions, under any back-pressure and with flushes at any time. */
module Frontend {
  import opened Machine
  import opened FetchBuffer

  /** One instruction handed to decode. */
  datatype Emitted = Emitted(instr: Word, pc: Word, is16: bool)

  function LowerHalf(w: Word): nat { w % 0x1_0000 }

  function UpperHalf(w: Word): nat { w / 0x1_0000 }

  /** The two low bits of every 32-bit instruction are set. */
  predicate Is32(half: nat) { half % 4 == 3 }

  /** `pc | 2` */
  function UpperPc(pc: Word): Word { if pc / 2 % 2 == 0 then pc + 2 else pc }

  function Join(lower: nat, upper: nat): Word
    requires lower < 0x1_0000 && upper < 0x1_0000
  {
    upper * 0x1_0000 + lower
  }

  // ---- The specification: parse the halfwords of the words from a cursor ------------

  function Half(words: seq<Entry>, c: nat): (h: nat)
    requires c < 2 * |words|
    ensures h < 0x1_0000
  {
    if c % 2 == 0 then LowerHalf(words[c / 2].data) else UpperHalf(words[c / 2].data)
  }

  function HalfPc(words: seq<Entry>, c: nat): Word
    requires c < 2 * |words|
  {
    if c % 2 == 0 then words[c / 2].pc else UpperPc(words[c / 2].pc)
  }

  /** What the stream says, from halfword `c` on; a trailing first half of a
      32-bit instruction says nothing yet. */
  function Parse(expand: nat -> Word, words: seq<Entry>, c: nat): seq<Emitted>
    decreases 2 * |words| - c
  {
    if c >= 2 * |words| then []
    else if !Is32(Half(words, c)) then
      [Emitted(expand(Half(words, c)), HalfPc(words, c), true)] + Parse(expand, words, c + 1)
    else if c + 1 < 2 * |words| then
      [Emitted(Join(Half(words, c), Half(words, c + 1)), HalfPc(words, c), false)] + Parse(expand, words, c + 2)
    else []
  }

  /** However the stream goes on, parsing it from `start` gives `emitted` and then
      what parsing from `c` gives. */
  ghost predicate Reaches(expand: nat -> Word, words: seq<Entry>, start: nat, emitted: seq<Emitted>, c: nat) {
    forall more: seq<Entry> :: ParsesVia(expand, words + more, start, emitted, c)
  }

  predicate ParsesVia(expand: nat -> Word, words: seq<Entry>, start: nat, emitted: seq<Emitted>, c: nat) {
    Parse(expand, words, start) == emitted + Parse(expand, words, c)
  }

  lemma HalfMore(words: seq<Entry>, more: seq<Entry>, c: nat)
    requires c < 2 * |words|
    ensures Half(words + more, c) == Half(words, c) && HalfPc(words + more, c) == HalfPc(words, c)
  {}

  lemma ParseAt(expand: nat -> Word, words: seq<Entry>, c: nat)
    requires c < 2 * |words|
    ensures !Is32(Half(words, c)) ==>
              Parse(expand, words, c) ==
              [Emitted(expand(Half(words, c)), HalfPc(words, c), true)] + Parse(expand, words, c + 1)
    ensures Is32(Half(words, c)) && c + 1 < 2 * |words| ==>
              Parse(expand, words, c) ==
              [Emitted(Join(Half(words, c), Half(words, c + 1)), HalfPc(words, c), false)] + Parse(expand, words, c + 2)
  {}

  lemma ViaNext(expand: nat -> Word, words: seq<Entry>, start: nat, emitted: seq<Emitted>, c: nat, i: Emitted, c': nat)
    requires ParsesVia(expand, words, start, emitted, c)
    requires Parse(expand, words, c) == [i] + Parse(expand, words, c')
    ensures ParsesVia(expand, words, start, emitted + [i], c')
  {
    hide Parse;
    assert emitted + ([i] + Parse(expand, words, c')) == emitted + [i] + Parse(expand, words, c');
  }

  lemma ReachesMore(expand: nat -> Word, words: seq<Entry>, start: nat, emitted: seq<Emitted>, c: nat, w: seq<Entry>)
    requires Reaches(expand, words, start, emitted, c)
    ensures Reaches(expand, words + w, start, emitted, c)
  {
    forall more: seq<Entry> ensures ParsesVia(expand, words + w + more, start, emitted, c) {
      assert words + w + more == words + (w + more);
      assert ParsesVia(expand, words + (w + more), start, emitted, c);
    }
  }

  lemma ReachesStart(expand: nat -> Word, start: nat)
    ensures Reaches(expand, [], start, [], start)
  {
    forall more: seq<Entry> ensures ParsesVia(expand, [] + more, start, [], start) {
      assert Parse(expand, [] + more, start) == [] + Parse(expand, [] + more, start);
    }
  }

  /** Emitting the 16-bit instruction at the cursor. */
  lemma Reaches16(expand: nat -> Word, words: seq<Entry>, start: nat, emitted: seq<Emitted>, c: nat)
    requires Reaches(expand, words, start, emitted, c) && c < 2 * |words| && !Is32(Half(words, c))
    ensures Reaches(expand, words, start,
                    emitted + [Emitted(expand(Half(words, c)), HalfPc(words, c), true)], c + 1)
  {
    hide Parse, ParsesVia, Half, HalfPc, Is32;
    var i := Emitted(expand(Half(words, c)), HalfPc(words, c), true);
    forall more: seq<Entry> ensures ParsesVia(expand, words + more, start, emitted + [i], c + 1) {
      assert ParsesVia(expand, words + more, start, emitted, c);
      HalfMore(words, more, c);
      ParseAt(expand, words + more, c);
      ViaNext(expand, words + more, start, emitted, c, i, c + 1);
    }
  }

  /** Emitting the 32-bit instruction at the cursor, in one word or across two. */
  lemma Reaches32(expand: nat -> Word, words: seq<Entry>, start: nat, emitted: seq<Emitted>, c: nat)
    requires Reaches(expand, words, start, emitted, c) && c + 1 < 2 * |words| && Is32(Half(words, c))
    ensures Reaches(expand, words, start,
                    emitted + [Emitted(Join(Half(words, c), Half(words, c + 1)), HalfPc(words, c), false)], c + 2)
  {
    hide Parse, ParsesVia, Half, HalfPc, Is32, Join;
    var i := Emitted(Join(Half(words, c), Half(words, c + 1)), HalfPc(words, c), false);
    forall more: seq<Entry> ensures ParsesVia(expand, words + more, start, emitted + [i], c + 2) {
      assert ParsesVia(expand, words + more, start, emitted, c);
      HalfMore(words, more, c);
      HalfMore(words, more, c + 1);
      ParseAt(expand, words + more, c);
      ViaNext(expand, words + more, start, emitted, c, i, c + 2);
    }
  }

  // ---- kronos_predecode -----------------------------------------------------------

  datatype Case = NoWord | CombineSpan | RvcLower | Whole32 | RvcUpper | SpanLower

  /** The registers: a put-aside first half with its address, and whether the lower
      half of the word at the head is used. */
  datatype Latch = Latch(prevValid: bool, prevData: nat, prevPc: Word, lowerConsumed: bool) {
    /** The one-hot classifier. */
    function Classify(word: Option<Entry>): Case {
      if word.None? then NoWord
      else if prevValid then CombineSpan
      else if !lowerConsumed then if Is32(LowerHalf(word.value.data)) then Whole32 else RvcLower
      else if Is32(UpperHalf(word.value.data)) then SpanLower else RvcUpper
    }

    /** A 32-bit instruction that starts in the last halfword of a page faults
        while fetches are translated. */
    predicate Fault(word: Option<Entry>, translate: bool) {
      translate &&
      match Classify(word)
      case SpanLower => word.value.pc / 4 % 0x400 == 0x3FF
      case CombineSpan => prevPc / 2 % 0x800 == 0x7FF
      case _ => false
    }

    /** The instruction on the outputs, if any. */
    function Output(expand: nat -> Word, word: Option<Entry>, translate: bool): Option<Emitted>
      requires prevData < 0x1_0000
    {
      if Fault(word, translate) then None else
      match Classify(word)
      case CombineSpan => Some(Emitted(Join(prevData, LowerHalf(word.value.data)), prevPc, false))
      case RvcLower => Some(Emitted(expand(LowerHalf(word.value.data)), word.value.pc, true))
      case Whole32 => Some(Emitted(word.value.data, word.value.pc, false))
      case RvcUpper => Some(Emitted(expand(UpperHalf(word.value.data)), UpperPc(word.value.pc), true))
      case _ => None
    }

    /** State moves when decode takes the output, or a first half is put aside. */
    predicate Advances(word: Option<Entry>, ready: bool, translate: bool) {
      var k := Classify(word);
      !Fault(word, translate) && (k.SpanLower? || (ready && !k.NoWord?))
    }

    /** Pop the word once its upper half is used or put aside. */
    predicate Consumes(word: Option<Entry>, ready: bool, translate: bool) {
      var k := Classify(word);
      Advances(word, ready, translate) && (k.Whole32? || k.RvcUpper? || k.SpanLower?)
    }

    /** The registers after an edge. */
    function Next(flush: bool, offset: bool, word: Option<Entry>, ready: bool, translate: bool): Latch {
      if flush then Latch(false, 0, 0, offset)
      else if !Advances(word, ready, translate) then this
      else match Classify(word)
        case SpanLower => Latch(true, UpperHalf(word.value.data), UpperPc(word.value.pc), false)
        case k => Latch(false, prevData, prevPc, k.CombineSpan? || k.RvcLower?)
    }
  }

  class Predecode {
    var prevValid: bool
    var prevData: nat
    var prevPc: Word
    var lowerConsumed: bool

    function State(): Latch
      reads this
    {
      Latch(prevValid, prevData, prevPc, lowerConsumed)
    }

    constructor ()
      ensures State() == Latch(false, 0, 0, false)
    {
      prevValid, prevData, prevPc, lowerConsumed := false, 0, 0, false;
    }

    method Clock(flush: bool, offset: bool, word: Option<Entry>, ready: bool, translate: bool)
      modifies this
      ensures State() == old(State()).Next(flush, offset, word, ready, translate)
    {
      if flush {
        prevValid, prevData, prevPc, lowerConsumed := false, 0, 0, offset;
      } else if State().Advances(word, ready, translate) {
        var k := State().Classify(word);
        prevValid, lowerConsumed := false, false;
        if k.CombineSpan? || k.RvcLower? {
          lowerConsumed := true;
        } else if k.SpanLower? {
          prevValid, prevData, prevPc := true, UpperHalf(word.value.data), UpperPc(word.value.pc);
        }
      }
    }
  }

  // ---- The invariant of the two together --------------------------------------------

  /** The next halfword to parse, after `popped` words. */
  function Cursor(popped: nat, s: Latch): int {
    2 * popped + (if s.lowerConsumed then 1 else 0) - (if s.prevValid then 1 else 0)
  }

  /** The latches hold what the words before the cursor left to be emitted. */
  ghost predicate Tracks(words: seq<Entry>, popped: nat, s: Latch) {
    && popped <= |words| && s.prevData < 0x1_0000
    && Cursor(popped, s) >= 0
    && (s.prevValid ==>
          && !s.lowerConsumed && popped >= 1 && Is32(s.prevData)
          && s.prevData == Half(words, Cursor(popped, s)) && s.prevPc == HalfPc(words, Cursor(popped, s)))
  }

  lemma TracksMore(words: seq<Entry>, popped: nat, s: Latch, w: seq<Entry>)
    requires Tracks(words, popped, s)
    ensures Tracks(words + w, popped, s)
  {}

  /** Whether the instruction at halfword `c` is 32 bits wide and straddles a page. */
  predicate Straddles(words: seq<Entry>, c: nat)
    requires c < 2 * |words|
  {
    c % 2 == 1 && Is32(Half(words, c)) && words[c / 2].pc / 4 % 0x400 == 0x3FF
  }

  lemma PageEnd(pc: Word)
    ensures UpperPc(pc) / 2 % 0x800 == 0x7FF <==> pc / 4 % 0x400 == 0x3FF
  {
    var q := pc / 4;
    assert UpperPc(pc) / 2 == 2 * q + 1;
    assert q == q / 0x400 * 0x400 + q % 0x400;
    assert (2 * q + 1) % 0x800 == 2 * (q % 0x400) + 1;
  }

  /** Since the last flush: the words enqueued, how many were popped, the halfword
      to start from, and the instructions decode has taken. */
  datatype History = History(words: seq<Entry>, popped: nat, start: nat, emitted: seq<Emitted>) {
    function Queue(): seq<Entry>
      requires popped <= |words|
    {
      words[popped..]
    }

    /** What the buffer shows to predecode. */
    function Shown(): Option<Entry> {
      if popped < |words| then Some(words[popped]) else None
    }

    ghost predicate Follows(expand: nat -> Word, s: Latch) {
      Tracks(words, popped, s) && Reaches(expand, words, start, emitted, Cursor(popped, s))
    }

    /** The same stream, with more words enqueued and more instructions taken; or a
        new one, after a flush. */
    predicate Continues(h: History, flush: bool, offset: bool, pushed: seq<Entry>, taken: seq<Emitted>) {
      if flush then this == History([], 0, if offset then 1 else 0, [])
      else start == h.start && words == h.words + pushed && emitted == h.emitted + taken
    }

    function Grow(pushed: seq<Entry>): History {
      this.(words := words + pushed)
    }

    /** What decode and predecode do to it at an edge without a flush. */
    function Take(expand: nat -> Word, s: Latch, ready: bool, translate: bool): History
      requires s.prevData < 0x1_0000
    {
      this.(popped := popped + if s.Consumes(Shown(), ready, translate) then 1 else 0,
            emitted := emitted + Taken(s.Output(expand, Shown(), translate), ready))
    }
  }

  /** With translation the next instruction faults: it is 32 bits wide and straddles
      a page. */
  predicate FaultsNext(h: History, s: Latch, translate: bool) {
    var c := Cursor(h.popped, s);
    translate && h.popped < |h.words| && 0 <= c < 2 * |h.words| && Straddles(h.words, c)
  }

  function Taken(out: Option<Emitted>, ready: bool): seq<Emitted> {
    if out.Some? && ready then [out.value] else []
  }

  /** A fault is raised exactly at an instruction that straddles a page. */
  lemma FaultStraddles(h: History, s: Latch, translate: bool)
    requires Tracks(h.words, h.popped, s)
    ensures s.Fault(h.Shown(), translate) <==> FaultsNext(h, s, translate)
  {
    if s.prevValid {
      var w := h.words[h.popped - 1];
      assert s.prevPc == UpperPc(w.pc);
      PageEnd(w.pc);
    }
  }

  /** The instruction on the outputs is the one the stream has at the cursor, and
      taking it moves the parse on. */
  lemma {:induction false} OutputParses(expand: nat -> Word, h: History, s: Latch, translate: bool)
    requires h.Follows(expand, s) && s.Output(expand, h.Shown(), translate).Some?
    ensures var i := s.Output(expand, h.Shown(), translate).value;
            Reaches(expand, h.words, h.start, h.emitted + [i], Cursor(h.popped, s) + if i.is16 then 1 else 2)
  {
    hide Reaches, Parse;
    var c: nat := Cursor(h.popped, s);
    match s.Classify(h.Shown())
    case CombineSpan => Reaches32(expand, h.words, h.start, h.emitted, c);
    case RvcLower => Reaches16(expand, h.words, h.start, h.emitted, c);
    case Whole32 => Reaches32(expand, h.words, h.start, h.emitted, c);
    case RvcUpper => Reaches16(expand, h.words, h.start, h.emitted, c);
  }

  /** An edge keeps the latches in step with the words popped, and moves the cursor
      past the instruction that was taken, if one was. */
  lemma NextTracks(expand: nat -> Word, h: History, s: Latch, ready: bool, translate: bool)
    requires Tracks(h.words, h.popped, s)
    ensures var n, p := s.Next(false, false, h.Shown(), ready, translate), h.Take(expand, s, ready, translate).popped;
            && Tracks(h.words, p, n)
            && Cursor(p, n) - Cursor(h.popped, s) ==
               match s.Output(expand, h.Shown(), translate)
               case Some(i) => if !ready then 0 else if i.is16 then 1 else 2
               case None => 0
  {}

  lemma TakeFollows(expand: nat -> Word, h: History, s: Latch, ready: bool, translate: bool)
    requires h.Follows(expand, s)
    ensures h.Take(expand, s, ready, translate).Follows(expand, s.Next(false, false, h.Shown(), ready, translate))
  {
    assert s.prevData < 0x1_0000;
    hide Reaches, Tracks, Latch.Output, Latch.Next, Latch.Consumes, Cursor, History.Shown;
    NextTracks(expand, h, s, ready, translate);
    if s.Output(expand, h.Shown(), translate).Some? && ready {
      OutputParses(expand, h, s, translate);
    } else {
      assert h.emitted + [] == h.emitted;
    }
  }

  lemma GrowFollows(expand: nat -> Word, h: History, s: Latch, pushed: seq<Entry>)
    requires h.Follows(expand, s)
    ensures h.Grow(pushed).Follows(expand, s)
  {
    hide Reaches, Cursor;
    TracksMore(h.words, h.popped, s, pushed);
    ReachesMore(expand, h.words, h.start, h.emitted, Cursor(h.popped, s), pushed);
  }

  /** What an edge without a flush does to the history and the queue. */
  lemma EdgeHistory(expand: nat -> Word, h: History, s: Latch, ready: bool, translate: bool, offset: bool,
                    pushed: seq<Entry>)
    requires h.popped <= |h.words| && s.prevData < 0x1_0000
    ensures var next := h.Take(expand, s, ready, translate).Grow(pushed);
            && next.Continues(h, false, offset, pushed, Taken(s.Output(expand, h.Shown(), translate), ready))
            && next.popped <= |next.words|
            && next.Queue() == QueueAfter(h.Queue(), false, s.Consumes(h.Shown(), ready, translate), pushed)
  {
    hide Latch.Output;
  }

  /** How far the stream has come. */
  function Reached(h: History, s: Latch): int { h.popped + Cursor(h.popped, s) }

  lemma ReachedBound(expand: nat -> Word, h: History, s: Latch)
    requires h.Follows(expand, s)
    ensures Reached(h, s) <= 3 * |h.words| + 1
  {
    hide Reaches;
  }

  /** A ready decoder never waits in vain: without a fault every word moves on. */
  lemma TakeMoves(expand: nat -> Word, h: History, s: Latch, translate: bool)
    requires h.Follows(expand, s) && h.Shown().Some? && !s.Fault(h.Shown(), translate)
    ensures Reached(h.Take(expand, s, true, translate), s.Next(false, false, h.Shown(), true, translate)) > Reached(h, s)
  {
    hide Reaches;
  }

  /** An edge as a whole. */
  lemma EdgeFollows(expand: nat -> Word, h: History, s: Latch, flush: bool, offset: bool, ready: bool, translate: bool,
                    pushed: seq<Entry>)
    returns (next: History)
    requires h.Follows(expand, s)
    ensures var n := s.Next(flush, offset, h.Shown(), ready, translate);
            && next.Follows(expand, n) && next.popped <= |next.words|
            && next.Continues(h, flush, offset, pushed, Taken(s.Output(expand, h.Shown(), translate), ready))
            && next.Queue() == QueueAfter(h.Queue(), flush, s.Consumes(h.Shown(), ready, translate), pushed)
            && (!flush && h.Shown().Some? && ready && !s.Fault(h.Shown(), translate) ==>
                  Reached(next, n) > Reached(h, s))
  {
    if flush {
      ReachesStart(expand, if offset then 1 else 0);
      return History([], 0, if offset then 1 else 0, []);
    }
    assert s.Next(flush, offset, h.Shown(), ready, translate) == s.Next(false, false, h.Shown(), ready, translate);
    assert s.prevData < 0x1_0000 && h.popped <= |h.words|;
    hide QueueAfter, History.Continues, Latch.Fault, Latch.Output, Latch.Advances, Latch.Consumes, Latch.Next,
         History.Follows, Cursor, History.Queue, Latch.Classify;
    TakeFollows(expand, h, s, ready, translate);
    var taken := h.Take(expand, s, ready, translate);
    GrowFollows(expand, taken, s.Next(false, false, h.Shown(), ready, translate), pushed);
    EdgeHistory(expand, h, s, ready, translate, offset, pushed);
    if h.Shown().Some? && ready && !s.Fault(h.Shown(), translate) { TakeMoves(expand, h, s, translate); }
    next := taken.Grow(pushed);
  }

  /** Decode has taken a prefix of the parse, and all of it once the queue is empty. */
  lemma EmittedParses(expand: nat -> Word, h: History, s: Latch)
    requires h.Follows(expand, s)
    ensures h.emitted <= Parse(expand, h.words, h.start)
    ensures h.Queue() == [] ==> h.emitted == Parse(expand, h.words, h.start)
  {
    assert ParsesVia(expand, h.words + [], h.start, h.emitted, Cursor(h.popped, s));
    assert h.words + [] == h.words;
  }

  // ---- The two together -------------------------------------------------------------

  class Stream {
    const fifo: Fifo
    const predecode: Predecode
    const expand: nat -> Word
    ghost var history: History

    ghost predicate Valid()
      reads this, fifo, fifo.pcs, fifo.data, predecode
    {
      && fifo.Valid()
      && history.Follows(expand, predecode.State())
      && fifo.Contents() == history.Queue()
    }

    constructor (depth: nat, expand: nat -> Word)
      requires depth >= 1
      ensures Valid() && history == History([], 0, 0, [])
      ensures fresh(fifo) && fresh(fifo.pcs) && fresh(fifo.data) && fresh(predecode)
    {
      fifo := new Fifo(depth);
      predecode := new Predecode();
      this.expand := expand;
      history := History([], 0, 0, []);
      new;
      ReachesStart(expand, 0);
    }

    /** The buffer shows predecode the next word of the history. */
    lemma Shows(translate: bool)
      requires Valid()
      ensures var h, s := history, predecode.State();
              && s.prevData < 0x1_0000 && fifo.Shown() == h.Shown() && h.Follows(expand, s)
              && (s.Fault(h.Shown(), translate) <==> FaultsNext(h, s, translate))
    {
      FaultStraddles(history, predecode.State(), translate);
    }

    /** One clock edge of the frontend. Decode takes the instruction on the outputs
        when it is valid and decode is ready; a flush forgets the stream. */
    method Clock(flush: bool, offset: bool, enq: Option<Entry>, ready: bool, translate: bool)
      returns (out: Option<Emitted>, fault: bool)
      requires Valid()
      modifies this, fifo, fifo.pcs, fifo.data, predecode
      ensures Valid()
      ensures history.Continues(old(history), flush, offset, old(fifo.Accepted(enq)), Taken(out, ready))
      ensures fault <==> old(FaultsNext(history, predecode.State(), translate))
      ensures !flush && ready && !fault && old(fifo.Shown()).Some? ==>
                Reached(history, predecode.State()) > old(Reached(history, predecode.State()))
    {
      hide QueueAfter, FaultsNext, Tracks, Reaches, Cursor, Reached, Taken, Latch.Fault, Latch.Output, Latch.Advances,
           Latch.Consumes, Latch.Next, Latch.Classify, History.Follows, History.Queue, History.Shown, History.Continues,
           Predecode.State, Fifo.Valid, Fifo.Contents, Fifo.Slot, Fifo.EnqReady, Fifo.DeqValid, Fifo.Front, Fifo.Shown,
           Fifo.Accepted;
      Shows(translate);
      var s, word := predecode.State(), fifo.Shown();
      fault := s.Fault(word, translate);
      out := s.Output(expand, word, translate);
      var consume := s.Consumes(word, ready, translate);
      history := EdgeFollows(expand, history, s, flush, offset, ready, translate, fifo.Accepted(enq));
      fifo.Clock(flush, enq, consume);
      predecode.Clock(flush, offset, word, ready, translate);
    }

    /** Decode stays ready and fetch stops: everything enqueued comes out, up to an
        instruction that faults. */
    method Drain(translate: bool) returns (fault: bool)
      requires Valid()
      modifies this, fifo, fifo.pcs, fifo.data, predecode
      ensures Valid() && history.words == old(history.words) && history.start == old(history.start)
      ensures history.emitted <= Parse(expand, history.words, history.start)
      ensures fault ==>
                && FaultsNext(history, predecode.State(), translate)
                && Reaches(expand, history.words, history.start, history.emitted,
                           Cursor(history.popped, predecode.State()))
      ensures !fault ==> history.emitted == Parse(expand, history.words, history.start)
    {
      hide Reaches, Parse, FaultsNext, Tracks, Cursor, Latch.Fault, Latch.Classify, Reached;
      Shows(translate);
      fault := predecode.State().Fault(fifo.Shown(), translate);
      while fifo.DeqValid() && !fault
        invariant Valid() && history.words == old(history.words) && history.start == old(history.start)
        invariant fault <==> FaultsNext(history, predecode.State(), translate)
        decreases 3 * |history.words| + 1 - Reached(history, predecode.State())
      {
        ReachedBound(expand, history, predecode.State());
        var out, faulted := Clock(false, false, None, true, translate);
        Shows(translate);
        fault := predecode.State().Fault(fifo.Shown(), translate);
      }
      EmittedParses(expand, history, predecode.State());
    }
  }
}
