/** Beat addresses of AXI wrapping bursts as the simulator's memory computes them
    (sim/sim_main.cpp:374-386 and 402-414): eight-byte beats. */
module AxiBurst {
  import opened Division

  /** The line of a burst of `n` beats, in bytes. */
  function LineSize(n: nat): nat { n * 8 }

  /** `addr & ~line_mask`; a power-of-two mask is a remainder. */
  function LineBase(n: nat, start: nat): int
    requires n > 0
  {
    start / LineSize(n) * LineSize(n)
  }

  function WrapAddr(n: nat, start: nat, beat: nat): int
    requires n > 0
  {
    LineBase(n, start) + (start % LineSize(n) + beat * 8) % LineSize(n)
  }

  /** The doubleword of the line that beat `beat` visits. */
  function Doubleword(n: nat, start: nat, beat: nat): (d: nat)
    requires n > 0
    ensures d < n
  {
    (start / 8 + beat) % n
  }

  /** A rotation of the line, counted in doublewords. */
  lemma WrapIsRotation(n: nat, start: nat, beat: nat)
    requires n > 0 && start % 8 == 0
    ensures WrapAddr(n, start, beat) == LineBase(n, start) + 8 * Doubleword(n, start, beat)
  {
    var d := start / 8;
    Scale(d, n);
    var r := d % n;
    Scale(r + beat, n);
    assert start % LineSize(n) == 8 * r;
    AddModulo(d, beat, n);
  }

  lemma Scale(d: nat, n: nat)
    requires n > 0
    ensures 8 * d % (n * 8) == 8 * (d % n)
  {
    var q, r := d / n, d % n;
    assert d == q * n + r;
    assert 8 * d == q * (n * 8) + 8 * r;
    DivModUnique(8 * d, n * 8, q, 8 * r);
  }

  lemma AddModulo(a: nat, b: nat, n: nat)
    requires n > 0
    ensures (a % n + b) % n == (a + b) % n
  {
    var q, r := a / n, a % n;
    var p, t := (r + b) / n, (r + b) % n;
    assert a + b == (q + p) * n + t;
    DivModUnique(a + b, n, q + p, t);
  }

  /** The beat that visits doubleword `d`. */
  function BeatOf(n: nat, start: nat, d: nat): (beat: nat)
    requires d < n
    ensures beat < n
  {
    (d + n - start / 8 % n) % n
  }

  lemma BeatOfIs(n: nat, start: nat, beat: nat, d: nat)
    requires n > 0 && beat < n && d < n
    ensures Doubleword(n, start, beat) == d <==> beat == BeatOf(n, start, d)
  {
    var r := start / 8 % n;
    AddModulo(start / 8, beat, n);
    if r + beat < n { DivModUnique(r + beat, n, 0, r + beat); } else { DivModUnique(r + beat, n, 1, r + beat - n); }
    if d + n - r < n { DivModUnique(d + n - r, n, 0, d + n - r); } else { DivModUnique(d + n - r, n, 1, d - r); }
  }

  /** Whether beat `beat` is the one and only beat of the burst at an address. */
  ghost predicate OnlyBeat(n: nat, start: nat, beat: nat, addr: int)
    requires n > 0
  {
    beat < n && forall b: nat | b < n :: WrapAddr(n, start, b) == addr <==> b == beat
  }

  /** A WRAP burst of a power of two beats visits each doubleword of the aligned line
      exactly once and nothing outside, and starts with the one asked for. */
  lemma WrapCoversLine(k: nat, start: nat, d: nat)
    requires start % 8 == 0 && d < Pow2(k)
    ensures var n := Pow2(k);
            && OnlyBeat(n, start, BeatOf(n, start, d), LineBase(n, start) + 8 * d)
            && WrapAddr(n, start, 0) == start
            && LineBase(n, start) % LineSize(n) == 0 && LineBase(n, start) <= start < LineBase(n, start) + LineSize(n)
    ensures var n := Pow2(k);
            forall b: nat | b < n :: LineBase(n, start) <= WrapAddr(n, start, b)
                                     && WrapAddr(n, start, b) + 8 <= LineBase(n, start) + LineSize(n)
  {
    var n := Pow2(k);
    hide Pow2, WrapAddr, LineBase, Doubleword, BeatOf;
    forall b: nat | b < n ensures WrapAddr(n, start, b) == LineBase(n, start) + 8 * d <==> b == BeatOf(n, start, d) {
      WrapIsRotation(n, start, b);
      BeatOfIs(n, start, b, d);
    }
    forall b: nat | b < n ensures LineBase(n, start) <= WrapAddr(n, start, b)
                                  && WrapAddr(n, start, b) + 8 <= LineBase(n, start) + LineSize(n) {
      WrapIsRotation(n, start, b);
    }
    FirstBeat(n, start);
  }

  lemma FirstBeat(n: nat, start: nat)
    requires n > 0
    ensures WrapAddr(n, start, 0) == start
    ensures LineBase(n, start) % LineSize(n) == 0 && start < LineBase(n, start) + LineSize(n)
  {
    var size := LineSize(n);
    var q, r := start / size, start % size;
    DivModUnique(r, size, 0, r);
    DivModUnique(start - r, size, q, 0);
  }
}
