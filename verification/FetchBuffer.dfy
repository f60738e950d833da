/** The ring FIFO of fetched words (rtl/common/kronos_fetch_buffer.sv), at any depth. */
module FetchBuffer {
  import opened Machine

  /** A fetched word and its address. */
  datatype Entry = Entry(pc: Word, data: Word)

  /** A queue after an edge: a flush drops everything; otherwise the oldest word may
      be popped and one pushed, both at once. */
  function QueueAfter(queue: seq<Entry>, flush: bool, pop: bool, pushed: seq<Entry>): seq<Entry> {
    if flush then [] else (if pop && queue != [] then queue[1..] else queue) + pushed
  }

  class Fifo {
    const depth: nat
    const pcs: array<Word>
    const data: array<Word>
    var head: nat
    var tail: nat
    var count: nat

    /** The slot `i` places after the head. */
    function Slot(i: nat): nat
      reads this
    {
      if head + i < depth then head + i else head + i - depth
    }

    ghost predicate Valid()
      reads this
    {
      && depth >= 1 && pcs.Length == depth && data.Length == depth && pcs != data
      && head < depth && count <= depth
      && tail == Slot(count)
    }

    /** The queue, oldest word first. */
    ghost function Contents(): (s: seq<Entry>)
      requires Valid()
      reads this, pcs, data
      ensures |s| == count
    {
      seq(count, i requires 0 <= i < count reads this, pcs, data requires Valid() =>
        Entry(pcs[Slot(i)], data[Slot(i)]))
    }

    constructor (depth: nat)
      requires depth >= 1
      ensures Valid() && Contents() == [] && this.depth == depth
      ensures fresh(pcs) && fresh(data)
    {
      this.depth := depth;
      pcs, data := new Word[depth](_ => 0), new Word[depth](_ => 0);
      head, tail, count := 0, 0, 0;
    }

    predicate EnqReady()
      reads this
    {
      count != depth
    }

    predicate DeqValid()
      reads this
    {
      count != 0
    }

    /** The word at the head. */
    function Front(): Entry
      requires Valid()
      reads this, pcs, data
      ensures count > 0 ==> Front() == Contents()[0]
    {
      Entry(pcs[head], data[head])
    }

    function Successor(p: nat): nat
      reads this
    {
      if p == depth - 1 then 0 else p + 1
    }

    /** The write half of an edge: the word goes to the tail slot. */
    method Push(e: Entry)
      requires Valid() && EnqReady()
      modifies this, pcs, data
      ensures Valid() && Contents() == old(Contents()) + [e]
    {
      pcs[tail], data[tail] := e.pc, e.data;
      tail := Successor(tail);
      count := count + 1;
    }

    /** The read half of an edge: the head moves on. */
    method Pop()
      requires Valid() && DeqValid()
      modifies this
      ensures Valid() && Contents() == old(Contents())[1..]
    {
      head := Successor(head);
      count := count - 1;
    }

    /** What dequeue shows: the oldest word, if there is one. */
    function Shown(): Option<Entry>
      requires Valid()
      reads this, pcs, data
      ensures Shown() == if Contents() == [] then None else Some(Contents()[0])
    {
      if DeqValid() then Some(Front()) else None
    }

    /** What enqueue takes: a full buffer refuses the word. */
    function Accepted(enq: Option<Entry>): seq<Entry>
      reads this
    {
      if enq.Some? && EnqReady() then [enq.value] else []
    }

    /** One clock edge; an empty buffer ignores the pop. */
    method Clock(flush: bool, enq: Option<Entry>, deqReady: bool)
      requires Valid()
      modifies this, pcs, data
      ensures Valid()
      ensures Contents() == QueueAfter(old(Contents()), flush, deqReady, old(Accepted(enq)))
    {
      var push, pop := enq.Some? && EnqReady(), deqReady && DeqValid();
      if flush {
        head, tail, count := 0, 0, 0;
      } else {
        if push { Push(enq.value); }
        if pop { Pop(); }
      }
    }
  }
}
