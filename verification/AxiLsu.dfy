/** The AXI4 load/store unit of stage 3 (rtl/stage3/kronos_lsu.sv) against a memory
    that answers on every channel whenever it likes (the slave of sim/sim_main.cpp is
    one such memory): together they are a flat byte memory. */
module AxiLsu {
  import opened Machine
  import opened Division
  import opened Rv32
  import opened ByteLanes
  import opened Search

  // ---- rtl/stage3/kronos_lsu.sv -----------------------------------------------------

  /** What the pipeline asks for. */
  datatype Access = Access(we: bool, addr: Word, wdata: Word, funct3: nat)

  datatype Phase = Idle | LoadAddr | LoadData | LoadDone | StoreSend | StoreResp | StoreDone

  /** A 64-bit beat with its byte strobes. */
  datatype Beat = Beat(data: nat, strobe: nat)

  /** What the memory drives towards the unit. */
  datatype Response = Response(arReady: bool, rData: Option<nat>, awReady: bool, wReady: bool, bValid: bool)

  function LineOf(addr: Word): Word { addr - addr % 8 }

  /** The byte strobes of the 64-bit beat. */
  function Strobe(funct3: nat, addr: Word): nat {
    if funct3 % 4 == 0 then Pow2(addr % 8)
    else if funct3 % 4 == 1 then 3 * Pow2(addr % 8 / 2 * 2)
    else if funct3 % 4 == 2 then if addr / 4 % 2 == 1 then 0xF0 else 0x0F
    else 0xFF
  }

  /** The store data, on both words of the beat. */
  function Replicated(funct3: nat, wdata: Word): nat {
    StoreLanes(funct3, wdata) * TWO_32 + StoreLanes(funct3, wdata)
  }

  /** The registers of the unit, and its outputs as functions of them. */
  datatype LsuState = LsuState(phase: Phase, addr: Word, wdata: Word, funct3: nat, rdata: nat,
                               awAcked: bool, wAcked: bool) {
    function Ar(): Option<Word> { if phase == LoadAddr then Some(LineOf(addr)) else None }

    predicate RReady() { phase == LoadData }

    function Aw(): Option<Word> { if phase == StoreSend && !awAcked then Some(LineOf(addr)) else None }

    function W(): Option<Beat> {
      if phase == StoreSend && !wAcked then Some(Beat(Replicated(funct3, wdata), Strobe(funct3, addr))) else None
    }

    predicate BReady() { phase == StoreResp }

    predicate Finished() { phase == LoadDone || phase == StoreDone }

    function Result(): Word {
      Extract(funct3, addr, if addr / 4 % 2 == 1 then rdata / TWO_32 % TWO_32 else rdata % TWO_32)
    }

    function Next(req: Option<Access>, rsp: Response): LsuState {
      match phase
      case Idle =>
        if req.None? then this
        else LsuState(if req.value.we then StoreSend else LoadAddr, req.value.addr, req.value.wdata, req.value.funct3,
                      rdata, awAcked && !req.value.we, wAcked && !req.value.we)
      case LoadAddr => if rsp.arReady then this.(phase := LoadData) else this
      case LoadData => if rsp.rData.Some? then this.(rdata := rsp.rData.value, phase := LoadDone) else this
      case LoadDone => this.(phase := Phase.Idle)
      case StoreSend =>
        var aw, w := awAcked || rsp.awReady, wAcked || rsp.wReady;
        if aw && w then this.(phase := StoreResp, awAcked := false, wAcked := false)
        else this.(awAcked := aw, wAcked := w)
      case StoreResp => if rsp.bValid then this.(phase := StoreDone) else this
      case StoreDone => this.(phase := Phase.Idle)
    }
  }

  const LSU_RESET := LsuState(Phase.Idle, 0, 0, 0, 0, false, false)

  class Lsu {
    var phase: Phase
    var addr: Word
    var wdata: Word
    var funct3: nat
    var rdata: nat
    var awAcked: bool
    var wAcked: bool

    function State(): LsuState
      reads this
    {
      LsuState(phase, addr, wdata, funct3, rdata, awAcked, wAcked)
    }

    constructor ()
      ensures State() == LSU_RESET
    {
      phase, addr, wdata, funct3, rdata, awAcked, wAcked := Phase.Idle, 0, 0, 0, 0, false, false;
    }

    method Clock(req: Option<Access>, rsp: Response)
      modifies this
      ensures State() == old(State()).Next(req, rsp)
    {
      match phase {
        case Idle =>
          if req.Some? {
            addr, wdata, funct3 := req.value.addr, req.value.wdata, req.value.funct3;
            if req.value.we {
              phase, awAcked, wAcked := StoreSend, false, false;
            } else {
              phase := LoadAddr;
            }
          }
        case LoadAddr => if rsp.arReady { phase := LoadData; }
        case LoadData => if rsp.rData.Some? { rdata := rsp.rData.value; phase := LoadDone; }
        case LoadDone => phase := Phase.Idle;
        case StoreSend =>
          if rsp.awReady { awAcked := true; }
          if rsp.wReady { wAcked := true; }
          if awAcked && wAcked { phase, awAcked, wAcked := StoreResp, false, false; }
        case StoreResp => if rsp.bValid { phase := StoreDone; }
        case StoreDone => phase := Phase.Idle;
      }
    }
  }

  // ---- sim/sim_main.cpp: the memory -------------------------------------------------

  /** Words in the simulator's memory; higher address bits are ignored. */
  const WORDS: nat := 0x8_0000

  type Words = m: seq<Word> | |m| == WORDS witness seq(WORDS, i => 0)

  /** The handshakes of one cycle, as seen by the memory. */
  datatype Handshakes = Handshakes(ar: Option<Word>, r: bool, aw: Option<Word>, w: Option<Beat>, b: bool)

  /** Transactions in flight. */
  datatype SlaveState = SlaveState(reading: Option<Word>, writeAddr: Option<Word>, writeBeat: Option<Beat>,
                                   responding: bool)

  const QUIET := SlaveState(None, None, None, false)

  function WordIndex(addr: Word): (i: nat)
    ensures i < WORDS
  {
    addr / 4 % WORDS
  }

  function Above(i: nat): (j: nat)
    ensures j < WORDS
  {
    (i + 1) % WORDS
  }

  /** The 64-bit beat at an address. */
  function ReadBeat(m: Words, addr: Word): nat {
    m[WordIndex(addr)] + m[Above(WordIndex(addr))] * TWO_32
  }

  /** The memory after a byte-strobed beat. */
  function Strobed(m: Words, addr: Word, beat: Beat): Words {
    var lo := WordIndex(addr);
    var m' := m[lo := Merge(m[lo], beat.strobe % 16, beat.data % TWO_32)];
    m'[Above(lo) := Merge(m'[Above(lo)], beat.strobe / 16 % 16, beat.data / TWO_32 % TWO_32)]
  }

  /** When the memory chooses to answer, channel by channel. */
  datatype Choice = Choice(ar: bool, r: bool, aw: bool, w: bool, b: bool)

  /** `beat` is what the memory holds at the address being read. */
  function Respond(s: SlaveState, beat: nat, c: Choice): Response {
    Response(c.ar, if s.reading.Some? && c.r then Some(beat) else None, c.aw, c.w, s.responding && c.b)
  }

  function Shake(l: LsuState, rsp: Response): Handshakes {
    Handshakes(if rsp.arReady then l.Ar() else None, rsp.rData.Some? && l.RReady(),
               if rsp.awReady then l.Aw() else None, if rsp.wReady then l.W() else None,
               rsp.bValid && l.BReady())
  }

  datatype Write = Write(addr: Word, beat: Beat)

  /** The write that takes effect in this cycle: its address and its data are both
      there, in whichever order they came. */
  function Commits(s: SlaveState, h: Handshakes): Option<Write> {
    var aw, w := if h.aw.Some? then h.aw else s.writeAddr, if h.w.Some? then h.w else s.writeBeat;
    if aw.Some? && w.Some? then Some(Write(aw.value, w.value)) else None
  }

  function NextSlave(s: SlaveState, h: Handshakes): SlaveState {
    var reading := if h.ar.Some? then h.ar else if h.r then None else s.reading;
    if Commits(s, h).Some? then SlaveState(reading, None, None, true)
    else SlaveState(reading, if h.aw.Some? then h.aw else s.writeAddr, if h.w.Some? then h.w else s.writeBeat,
                    s.responding && !h.b)
  }

  function Apply(m: Words, w: Option<Write>): Words {
    if w.Some? then Strobed(m, w.value.addr, w.value.beat) else m
  }

  class Slave {
    const mem: array<Word>
    var reading: Option<Word>
    var writeAddr: Option<Word>
    var writeBeat: Option<Beat>
    var responding: bool

    ghost predicate Valid() { mem.Length == WORDS }

    function State(): SlaveState
      reads this
    {
      SlaveState(reading, writeAddr, writeBeat, responding)
    }

    constructor ()
      ensures Valid() && fresh(mem) && State() == QUIET
    {
      mem := new Word[WORDS](_ => 0);
      reading, writeAddr, writeBeat, responding := None, None, None, false;
    }

    function Read(addr: Word): nat
      requires Valid()
      reads mem
      ensures Read(addr) == ReadBeat(mem[..], addr)
    {
      mem[WordIndex(addr)] + mem[Above(WordIndex(addr))] * TWO_32
    }

    /** The byte-strobed write of the low word, then of the high word. */
    method Write(addr: Word, beat: Beat)
      requires Valid()
      modifies mem
      ensures mem[..] == Strobed(old(mem[..]), addr, beat)
    {
      hide Merge;
      var lo := WordIndex(addr);
      mem[lo] := Merge(mem[lo], beat.strobe % 16, beat.data % TWO_32);
      mem[Above(lo)] := Merge(mem[Above(lo)], beat.strobe / 16 % 16, beat.data / TWO_32 % TWO_32);
    }

    method Clock(h: Handshakes)
      requires Valid()
      modifies this, mem
      ensures State() == NextSlave(old(State()), h)
      ensures mem[..] == Apply(old(mem[..]), Commits(old(State()), h))
    {
      hide Strobed;
      if h.r { reading := None; }
      if h.ar.Some? { reading := h.ar; }
      if h.b { responding := false; }
      if h.aw.Some? { writeAddr := h.aw; }
      if h.w.Some? { writeBeat := h.w; }
      if writeAddr.Some? && writeBeat.Some? {
        Write(writeAddr.value, writeBeat.value);
        writeAddr, writeBeat, responding := None, None, true;
      }
    }
  }

  // ---- The specification: a flat byte memory ------------------------------------------

  const BYTES: nat := 0x20_0000

  /** Byte `a` of the memory. */
  function FlatByteAt(m: Words, a: nat): nat
    requires a < BYTES
  {
    Byte(m[a / 4], a % 4)
  }

  function FlatAddr(addr: nat): (a: nat)
    ensures a < BYTES
  {
    addr % BYTES
  }

  /** Little-endian value of `n` bytes from `addr`. */
  function FlatValue(m: Words, addr: nat, n: nat): nat
    decreases n
  {
    if n == 0 then 0 else FlatByteAt(m, FlatAddr(addr)) + 0x100 * FlatValue(m, addr + 1, n - 1)
  }

  /** What a load must return. */
  function FlatLoad(m: Words, funct3: nat, addr: Word): nat {
    var v := FlatValue(m, addr, Size(funct3));
    if funct3 == 0 then SignExtend(8, v) else if funct3 == 1 then SignExtend(16, v) else v
  }

  /** `n` bytes from `addr` hold `wdata`, and no other byte has changed. */
  ghost predicate FlatStore(m: Words, m': Words, addr: Word, n: nat, wdata: Word) {
    forall a | 0 <= a < BYTES :: StoredAt(m, m', addr, n, wdata, a)
  }

  predicate StoredAt(m: Words, m': Words, addr: Word, n: nat, wdata: Word, a: nat)
    requires a < BYTES
  {
    FlatByteAt(m', a) == if FlatAddr(addr) <= a < FlatAddr(addr) + n && a - FlatAddr(addr) < 4
                         then Byte(wdata, a - FlatAddr(addr)) else FlatByteAt(m, a)
  }

  // ---- Lanes of the 64-bit beat ---------------------------------------------------------

  /** Where the unit really stores: the address brought down to its natural alignment. */
  function Down(funct3: nat, addr: Word): Word { addr - addr % Size(funct3) }

  /** The strobes are those of the addressed word, and none of the other's. */
  lemma StrobeNibbles(funct3: nat, addr: Word)
    requires StoreFunct3(funct3)
    ensures var be := ByteEnable(funct3, Down(funct3, addr));
            be < 16 && Strobe(funct3, addr) == if addr / 4 % 2 == 1 then 16 * be else be
  {
    hide Pow2;
    var k, off := addr / 4 % 2, addr % 4;
    AddressBits(addr);
    SmallPowers(k, off);
    SmallPowers(k, off - off % 2);
    if Size(funct3) == 2 {
      assert addr % 8 / 2 * 2 == 4 * k + (off - off % 2);
      assert ByteEnable(funct3, Down(funct3, addr)) == 3 * Pow2(off - off % 2) % 16;
    }
  }

  /** An address taken apart: line, word of the line, byte of the word. */
  lemma Parts(p: nat, k: nat, off: nat)
    requires k < 2 && off < 4
    ensures var a := 8 * p + 4 * k + off;
            a / 8 == p && a % 8 == 4 * k + off && a / 4 == 2 * p + k && a % 4 == off && a % 2 == off % 2
    ensures (2 * p + k) / 2 == p && (2 * p + k) % 2 == k
  {
    var a := 8 * p + 4 * k + off;
    DivModUnique(a, 8, p, 4 * k + off);
    DivModUnique(a, 4, 2 * p + k, off);
    DivModUnique(a, 2, 4 * p + 2 * k + off / 2, off % 2);
    DivModUnique(2 * p + k, 2, p, k);
  }

  lemma AddressBits(addr: Word)
    ensures addr == 8 * (addr / 8) + 4 * (addr / 4 % 2) + addr % 4
    ensures addr % 8 == 4 * (addr / 4 % 2) + addr % 4 && addr % 2 == addr % 4 % 2
    ensures addr / 4 == 2 * (addr / 8) + addr / 4 % 2
    ensures (addr - addr % 2) % 4 == addr % 4 - addr % 2
  {
    var p, r := addr / 8, addr % 8;
    var k, off := r / 4, r % 4;
    assert addr == 8 * p + 4 * k + off;
    Parts(p, k, off);
    Parts(p, k, off - off % 2);
  }

  lemma SmallPowers(k: nat, off: nat)
    requires k < 2 && off < 4
    ensures Pow2(4 * k + off) == if k == 1 then 16 * Pow2(off) else Pow2(off)
    ensures Pow2(off) == if off == 0 then 1 else if off == 1 then 2 else if off == 2 then 4 else 8
  {
    assert Pow2(0) == 1 && Pow2(1) == 2 && Pow2(2) == 4 && Pow2(3) == 8;
    assert Pow2(4) == 16 && Pow2(5) == 32 && Pow2(6) == 64 && Pow2(7) == 128;
  }

  lemma MergeNone(prev: Word, w: Word)
    ensures Merge(prev, 0, w) == prev
  {
    hide Byte;
    WordOfBytes(prev);
  }

  /** The index of the addressed word, and its place in the line. */
  lemma LineIndex(addr: Word)
    ensures WordIndex(addr) < WORDS
    ensures if addr / 4 % 2 == 1 then WordIndex(addr) == Above(WordIndex(LineOf(addr)))
            else WordIndex(addr) == WordIndex(LineOf(addr))
    ensures Above(WordIndex(LineOf(addr))) == WordIndex(LineOf(addr)) + 1
  {
    AddressBits(addr);
    var p := addr / 8;
    Parts(p, 0, 0);
    assert LineOf(addr) / 4 == 2 * p;
    var n, r := p / 0x4_0000, p % 0x4_0000;
    DivModUnique(2 * p, WORDS, n, 2 * r);
    DivModUnique(2 * p + 1, WORDS, n, 2 * r + 1);
    DivModUnique(2 * r + 1, WORDS, 0, 2 * r + 1);
  }

  /** A beat changes the addressed word only, as the 32-bit lanes would. */
  lemma StrobedWord(m: Words, funct3: nat, addr: Word, wdata: Word)
    requires StoreFunct3(funct3)
    ensures Strobed(m, LineOf(addr), Beat(Replicated(funct3, wdata), Strobe(funct3, addr))) ==
            m[WordIndex(addr) :=
              Merge(m[WordIndex(addr)], ByteEnable(funct3, Down(funct3, addr)), StoreLanes(funct3, wdata))]
  {
    hide Merge, StoreLanes, ByteEnable, Strobe, WordIndex, Above, Replicated, Down;
    StrobeNibbles(funct3, addr);
    LineIndex(addr);
    HalvesAre(funct3, wdata);
    var lanes, lo := StoreLanes(funct3, wdata), WordIndex(LineOf(addr));
    if addr / 4 % 2 == 1 {
      MergeNone(m[lo], lanes);
    } else {
      MergeNone(m[Above(lo)], lanes);
    }
  }

  lemma HalvesAre(funct3: nat, wdata: Word)
    ensures Replicated(funct3, wdata) % TWO_32 == StoreLanes(funct3, wdata)
    ensures Replicated(funct3, wdata) / TWO_32 % TWO_32 == StoreLanes(funct3, wdata)
  {
    hide StoreLanes;
  }

  /** So it is a flat store at the aligned address. */
  lemma StrobedFlat(m: Words, funct3: nat, addr: Word, wdata: Word)
    requires StoreFunct3(funct3)
    ensures FlatStore(m, Strobed(m, LineOf(addr), Beat(Replicated(funct3, wdata), Strobe(funct3, addr))),
                      Down(funct3, addr), Size(funct3), wdata)
  {
    hide Strobed, Merge, StoreLanes, ByteEnable, Byte, Strobe, Replicated, Down, StoresFlat;
    var down, i := Down(funct3, addr), WordIndex(addr);
    DownIndex(funct3, addr);
    StrobedWord(m, funct3, addr, wdata);
    StoreExact(funct3, down);
    assert StoresFlat(funct3, down, m[i], wdata);
    var m' := Strobed(m, LineOf(addr), Beat(Replicated(funct3, wdata), Strobe(funct3, addr)));
    forall a | 0 <= a < BYTES ensures StoredAt(m, m', down, Size(funct3), wdata, a) {
      StoredFlatAt(m, m', funct3, down, wdata, a);
    }
  }

  lemma DownIndex(funct3: nat, addr: Word)
    ensures Aligned(funct3, Down(funct3, addr)) && WordIndex(Down(funct3, addr)) == WordIndex(addr)
    ensures Down(funct3, addr) % 4 + Size(funct3) <= 4
  {
    AddressBits(addr);
    var p, k, off := addr / 8, addr / 4 % 2, addr % 4;
    Parts(p, k, off - off % Size(funct3));
    assert addr % Size(funct3) == off % Size(funct3);
    assert Down(funct3, addr) == 8 * p + 4 * k + (off - off % Size(funct3));
    assert (off - off % Size(funct3)) % Size(funct3) == 0;
  }

  lemma StoredFlatAt(m: Words, m': Words, funct3: nat, addr: Word, wdata: Word, a: nat)
    requires StoreFunct3(funct3) && a < BYTES && addr % 4 + Size(funct3) <= 4
    requires StoresFlat(funct3, addr, m[WordIndex(addr)], wdata)
    requires m' == m[WordIndex(addr) :=
                     Merge(m[WordIndex(addr)], ByteEnable(funct3, addr), StoreLanes(funct3, wdata))]
    ensures StoredAt(m, m', addr, Size(funct3), wdata, a)
  {
    hide Merge, StoreLanes, ByteEnable, Byte;
    var i := WordIndex(addr);
    assert FlatAddr(addr) == 4 * i + addr % 4;
    assert a == 4 * (a / 4) + a % 4;
    if a / 4 == i {
      assert Byte(Merge(m[i], ByteEnable(funct3, addr), StoreLanes(funct3, wdata)), a % 4)
          == FlatByte(funct3, addr, m[i], wdata, a % 4);
    }
  }

  lemma FlatIndex(addr: nat)
    ensures FlatAddr(addr) / 4 == addr / 4 % WORDS && FlatAddr(addr) % 4 == addr % 4
  {
    var q, off := addr / 4, addr % 4;
    var p, i := q / WORDS, q % WORDS;
    DivModUnique(addr, BYTES, p, 4 * i + off);
    DivModUnique(4 * i + off, 4, i, off);
  }

  /** The bytes of a load inside one word. */
  lemma FlatIsLittle(m: Words, addr: nat, n: nat, next: Word)
    requires addr % 4 + n <= 4 && n > 0
    ensures FlatValue(m, addr, n) == Little(m[addr / 4 % WORDS], next, addr % 4, n)
    decreases n
  {
    hide Byte, FlatAddr;
    FlatIndex(addr);
    if n > 1 {
      DivModUnique(addr + 1, 4, addr / 4, addr % 4 + 1);
      FlatIsLittle(m, addr + 1, n - 1, next);
    }
  }

  /** The beat's addressed lane is the addressed word. */
  lemma ReadLane(m: Words, addr: Word)
    ensures var beat := ReadBeat(m, LineOf(addr));
            (if addr / 4 % 2 == 1 then beat / TWO_32 % TWO_32 else beat % TWO_32) == m[WordIndex(addr)]
  {
    hide WordIndex, Above;
    LineIndex(addr);
    var lo, hi := m[WordIndex(LineOf(addr))], m[Above(WordIndex(LineOf(addr)))];
    assert (lo + hi * TWO_32) % TWO_32 == lo && (lo + hi * TWO_32) / TWO_32 == hi;
  }

  /** A load inside its aligned word returns the flat value. */
  lemma LoadFlat(m: Words, l: LsuState)
    requires LoadFunct3(l.funct3) && l.addr % 4 + Size(l.funct3) <= 4
    requires l.rdata == ReadBeat(m, LineOf(l.addr))
    ensures l.Result() == FlatLoad(m, l.funct3, l.addr)
  {
    hide Extract, Byte, SignExtend, Little, ReadBeat, FlatValue;
    ReadLane(m, l.addr);
    var raw := m[WordIndex(l.addr)];
    InsideLoad(l.funct3, l.addr, raw, 0);
    FlatIsLittle(m, l.addr, Size(l.funct3), 0);
  }

  /** A word is loaded from the address brought down to its alignment. */
  lemma LoadWordDown(m: Words, l: LsuState)
    requires l.funct3 == 2 && l.rdata == ReadBeat(m, LineOf(l.addr))
    ensures l.Result() == FlatLoad(m, 2, Down(2, l.addr))
  {
    hide Byte, Little, ReadBeat, FlatValue, WordIndex, Down, Pow2;
    ReadLane(m, l.addr);
    DownIndex(2, l.addr);
    WordIsFlat(m, Down(2, l.addr));
  }

  lemma WordIsFlat(m: Words, addr: Word)
    requires addr % 4 + 4 <= 4
    ensures FlatLoad(m, 2, addr) == m[WordIndex(addr)]
  {
    hide Byte, Little, FlatValue;
    InsideLoad(2, addr, m[WordIndex(addr)], 0);
    FlatIsLittle(m, addr, 4, 0);
  }

  /** A half-word at the last byte of a word gets that byte alone. */
  lemma LoadHalfAtEnd(m: Words, l: LsuState)
    requires (l.funct3 == 1 || l.funct3 == 5) && l.addr % 4 == 3 && l.rdata == ReadBeat(m, LineOf(l.addr))
    ensures var b := FlatByteAt(m, FlatAddr(l.addr)); l.Result() == if l.funct3 == 1 then SignExtend(16, b) else b
  {
    hide Byte, SignExtend, ReadBeat, Pow2, FlatAddr;
    ReadLane(m, l.addr);
    ShiftedBytes(m[WordIndex(l.addr)], 3);
    FlatIndex(l.addr);
  }

  /** What a store wrote, the bytes of the same access hold. */
  lemma StoredValue(m: Words, m': Words, funct3: nat, addr: Word, wdata: Word)
    requires StoreFunct3(funct3) && Aligned(funct3, addr) && FlatStore(m, m', addr, Size(funct3), wdata)
    ensures FlatValue(m', addr, Size(funct3)) ==
            if funct3 == 0 then wdata % 0x100 else if funct3 == 1 then wdata % 0x1_0000 else wdata
  {
    hide Byte, FlatByteAt, FlatValue, FlatAddr, FlatStore;
    ByteIs(wdata);
    StoredByteAt(m, m', addr, Size(funct3), wdata, 0);
    FlatUnfolds(m', addr);
    if funct3 != 0 {
      HalfBytes(wdata);
      StoredByteAt(m, m', addr, Size(funct3), wdata, 1);
    }
    if funct3 == 2 {
      StoredByteAt(m, m', addr, 4, wdata, 2);
      StoredByteAt(m, m', addr, 4, wdata, 3);
      WordOfBytes(wdata);
    }
  }

  lemma StoredByteAt(m: Words, m': Words, addr: Word, n: nat, wdata: Word, k: nat)
    requires addr % 4 + n <= 4 && k < n && FlatStore(m, m', addr, n, wdata)
    ensures FlatByteAt(m', FlatAddr(addr + k)) == Byte(wdata, k)
  {
    hide Byte, FlatByteAt;
    var q, off := addr / 4, addr % 4;
    var i := FlatAddr(addr);
    DivModUnique(addr + k, BYTES, addr / BYTES, i + k);
    assert StoredAt(m, m', addr, n, wdata, i + k);
  }

  lemma FlatUnfolds(m: Words, addr: nat)
    ensures FlatValue(m, addr, 1) == FlatByteAt(m, FlatAddr(addr))
    ensures FlatValue(m, addr, 2) == FlatByteAt(m, FlatAddr(addr)) + 0x100 * FlatByteAt(m, FlatAddr(addr + 1))
    ensures FlatValue(m, addr, 4) ==
            FlatByteAt(m, FlatAddr(addr)) + 0x100 * (FlatByteAt(m, FlatAddr(addr + 1))
            + 0x100 * (FlatByteAt(m, FlatAddr(addr + 2)) + 0x100 * FlatByteAt(m, FlatAddr(addr + 3))))
  {
    hide FlatByteAt, FlatAddr;
    FlatTwo(m, addr);
    FlatTwo(m, addr + 2);
    assert FlatValue(m, addr, 4) == FlatByteAt(m, FlatAddr(addr)) + 0x100 * FlatValue(m, addr + 1, 3);
  }

  lemma FlatTwo(m: Words, addr: nat)
    ensures FlatValue(m, addr, 1) == FlatByteAt(m, FlatAddr(addr))
    ensures FlatValue(m, addr, 2) == FlatByteAt(m, FlatAddr(addr)) + 0x100 * FlatByteAt(m, FlatAddr(addr + 1))
  {
    hide FlatByteAt, FlatAddr;
    assert FlatValue(m, addr + 1, 1) == FlatByteAt(m, FlatAddr(addr + 1)) + 0x100 * FlatValue(m, addr + 2, 0);
  }

  // ---- The unit and the memory together -----------------------------------------------

  /** A handshake, with what it carried. */
  datatype Event = Ar(addr: Word) | R(data: nat) | Aw(addr: Word) | W(beat: Beat) | B

  /** The handshakes of one cycle. */
  function Events(h: Handshakes, beat: nat): seq<Event> {
    (if h.ar.Some? then [Ar(h.ar.value)] else []) + (if h.r then [R(beat)] else [])
    + (if h.aw.Some? then [Aw(h.aw.value)] else []) + (if h.w.Some? then [W(h.w.value)] else [])
    + (if h.b then [B] else [])
  }

  /** The access being served; its handshakes, and the write that took effect, since
      it was taken up. */
  datatype Ledger = Ledger(access: Access, log: seq<Event>, write: Option<Write>)

  datatype Port = Port(l: LsuState, s: SlaveState)

  function PortShake(p: Port, c: Choice, beat: nat): Handshakes { Shake(p.l, Respond(p.s, beat, c)) }

  function NextPort(p: Port, req: Option<Access>, c: Choice, beat: nat): Port {
    Port(p.l.Next(req, Respond(p.s, beat, c)), NextSlave(p.s, PortShake(p, c, beat)))
  }

  function NextLedger(g: Ledger, p: Port, req: Option<Access>, c: Choice, beat: nat): Ledger {
    var h := PortShake(p, c, beat);
    var write := Commits(p.s, h);
    if p.l.phase == Phase.Idle && req.Some? then Ledger(req.value, [], None)
    else Ledger(g.access, g.log + Events(h, beat), if write.Some? then write else g.write)
  }

  function StoreBeat(a: Access): Beat { Beat(Replicated(a.funct3, a.wdata), Strobe(a.funct3, a.addr)) }

  function StoreWrite(a: Access): Write { Write(LineOf(a.addr), StoreBeat(a)) }

  /** One address and one data beat, in either order. */
  predicate SentOnce(a: Access, log: seq<Event>) {
    var aw, w := Aw(LineOf(a.addr)), W(StoreBeat(a));
    log == [aw, w] || log == [w, aw]
  }

  /** What holds in every cycle, phase by phase: where the transaction stands, and
      that it is the only one. */
  predicate Serves(g: Ledger, p: Port) {
    var a, l, line := g.access, p.l, LineOf(g.access.addr);
    && (l.phase != Phase.Idle ==> l.addr == a.addr && l.wdata == a.wdata && l.funct3 == a.funct3)
    && match l.phase
       case Idle => p.s == QUIET
       case LoadAddr => !a.we && g.write.None? && p.s == QUIET && g.log == []
       case LoadData => !a.we && g.write.None? && p.s == QUIET.(reading := Some(line)) && g.log == [Ar(line)]
       case LoadDone => !a.we && g.write.None? && p.s == QUIET && g.log == [Ar(line), R(l.rdata)]
       case StoreSend =>
         && a.we && g.write.None? && !(l.awAcked && l.wAcked)
         && p.s == SlaveState(None, if l.awAcked then Some(line) else None,
                              if l.wAcked then Some(StoreBeat(a)) else None, false)
         && g.log == if l.awAcked then [Aw(line)] else if l.wAcked then [W(StoreBeat(a))] else []
       case StoreResp =>
         a.we && g.write == Some(StoreWrite(a)) && p.s == QUIET.(responding := true) && SentOnce(a, g.log)
       case StoreDone =>
         && a.we && g.write == Some(StoreWrite(a)) && p.s == QUIET
         && |g.log| == 3 && SentOnce(a, g.log[..2]) && g.log[2] == B
  }

  lemma LoadAddrServes(g: Ledger, p: Port, req: Option<Access>, c: Choice, beat: nat)
    requires Serves(g, p) && p.l.phase == LoadAddr
    ensures Serves(NextLedger(g, p, req, c, beat), NextPort(p, req, c, beat))
  {
    hide Replicated, Strobe, LineOf;
  }

  lemma LoadDataServes(g: Ledger, p: Port, req: Option<Access>, c: Choice, beat: nat)
    requires Serves(g, p) && p.l.phase == LoadData
    ensures Serves(NextLedger(g, p, req, c, beat), NextPort(p, req, c, beat))
  {
    hide Replicated, Strobe, LineOf;
  }

  lemma SendServes(g: Ledger, p: Port, req: Option<Access>, c: Choice, beat: nat)
    requires Serves(g, p) && p.l.phase == StoreSend
    ensures Serves(NextLedger(g, p, req, c, beat), NextPort(p, req, c, beat))
  {
    hide Replicated, Strobe, LineOf;
  }

  lemma RespServes(g: Ledger, p: Port, req: Option<Access>, c: Choice, beat: nat)
    requires Serves(g, p) && p.l.phase == StoreResp
    ensures Serves(NextLedger(g, p, req, c, beat), NextPort(p, req, c, beat))
  {
    hide Replicated, Strobe, LineOf;
  }

  lemma RestServes(g: Ledger, p: Port, req: Option<Access>, c: Choice, beat: nat)
    requires Serves(g, p) && (p.l.phase == Phase.Idle || p.l.Finished())
    ensures Serves(NextLedger(g, p, req, c, beat), NextPort(p, req, c, beat))
  {
    hide Replicated, Strobe, LineOf;
  }

  /** Whatever the memory's timing, each cycle keeps it. */
  lemma StepServes(g: Ledger, p: Port, req: Option<Access>, c: Choice, beat: nat)
    requires Serves(g, p)
    ensures Serves(NextLedger(g, p, req, c, beat), NextPort(p, req, c, beat))
  {
    hide Serves, NextLedger, NextPort;
    match p.l.phase
    case LoadAddr => LoadAddrServes(g, p, req, c, beat);
    case LoadData => LoadDataServes(g, p, req, c, beat);
    case StoreSend => SendServes(g, p, req, c, beat);
    case StoreResp => RespServes(g, p, req, c, beat);
    case _ => RestServes(g, p, req, c, beat);
  }

  // ---- The data -----------------------------------------------------------------------

  /** What the memory holds at the address being read. */
  function BeatFor(s: SlaveState, m: Words): nat { if s.reading.Some? then ReadBeat(m, s.reading.value) else 0 }

  /** The memory is that of the start of the access, with its write in it once that
      has taken effect; a finished load has read from it. */
  predicate Holds(g: Ledger, before: Words, p: Port, m: Words) {
    && Serves(g, p)
    && (p.l.phase != Phase.Idle ==> m == Apply(before, g.write))
    && (p.l.phase == LoadDone ==> p.l.rdata == ReadBeat(before, LineOf(g.access.addr)))
  }

  function NextBefore(before: Words, p: Port, m: Words, req: Option<Access>): Words {
    if p.l.phase == Phase.Idle && req.Some? then m else before
  }

  lemma StepHolds(g: Ledger, before: Words, p: Port, m: Words, req: Option<Access>, c: Choice)
    requires Holds(g, before, p, m)
    ensures var beat := BeatFor(p.s, m);
            Holds(NextLedger(g, p, req, c, beat), NextBefore(before, p, m, req), NextPort(p, req, c, beat),
                  Apply(m, Commits(p.s, PortShake(p, c, beat))))
  {
    hide Strobed, ReadBeat, Replicated, Strobe, LineOf;
    StepServes(g, p, req, c, BeatFor(p.s, m));
  }

  /** An access that is done made exactly one AR and one R handshake, or one AW and
      one W in some order and then one B; and it is an access of the flat memory. */
  lemma Completed(g: Ledger, before: Words, p: Port, m: Words)
    requires Holds(g, before, p, m) && p.l.Finished()
    ensures g.access.we ==>
              && |g.log| == 3 && SentOnce(g.access, g.log[..2]) && g.log[2] == B
              && (StoreFunct3(g.access.funct3) ==>
                    FlatStore(before, m, Down(g.access.funct3, g.access.addr), Size(g.access.funct3), g.access.wdata))
    ensures !g.access.we ==>
              && |g.log| == 2 && g.log[0] == Ar(LineOf(g.access.addr)) && g.log[1].R? && m == before
              && (LoadFunct3(g.access.funct3) && g.access.addr % 4 + Size(g.access.funct3) <= 4 ==>
                    p.l.Result() == FlatLoad(before, g.access.funct3, g.access.addr))
  {
    hide Strobed, FlatStore, Replicated, Strobe, LineOf, Down, FlatLoad, LsuState.Result, ReadBeat, Size;
    if g.access.we {
      if StoreFunct3(g.access.funct3) { StrobedFlat(before, g.access.funct3, g.access.addr, g.access.wdata); }
    } else if LoadFunct3(g.access.funct3) && g.access.addr % 4 + Size(g.access.funct3) <= 4 {
      LoadFlat(before, p.l);
    }
  }

  /** A VALID once raised stays, with what it announces, until its READY. */
  lemma ValidStays(l: LsuState, req: Option<Access>, rsp: Response)
    ensures l.Ar().Some? && !rsp.arReady ==> l.Next(req, rsp).Ar() == l.Ar()
    ensures l.Aw().Some? && !rsp.awReady ==> l.Next(req, rsp).Aw() == l.Aw()
    ensures l.W().Some? && !rsp.wReady ==> l.Next(req, rsp).W() == l.W()
  {
    hide Replicated, Strobe;
  }

  /** The memory never sees a second address before it has answered, and its
      answers never wait. */
  lemma NeverTwice(g: Ledger, p: Port)
    requires Serves(g, p)
    ensures p.l.Ar().Some? ==> p.s.reading.None?
    ensures p.l.Aw().Some? ==> p.s.writeAddr.None? && !p.s.responding
    ensures p.l.W().Some? ==> p.s.writeBeat.None? && !p.s.responding
    ensures (p.s.reading.Some? ==> p.l.RReady()) && (p.s.responding ==> p.l.BReady())
  {
    hide Replicated, Strobe, LineOf;
  }

  // ---- Progress -------------------------------------------------------------------------

  /** How far an access has come: the phase, and what a store has sent. */
  datatype Stage = Stage(phase: Phase, aw: bool, w: bool) {
    predicate Finished() { phase == LoadDone || phase == StoreDone }

    /** Handshakes still to be made. */
    function Owed(): nat {
      match phase
      case LoadAddr => 2
      case LoadData => 1
      case StoreSend => if aw || w then 2 else 3
      case StoreResp => 1
      case _ => 0
    }

    /** Whether the memory answers on a channel the unit waits for. */
    predicate Answered(c: Choice) {
      match phase
      case LoadAddr => c.ar
      case LoadData => c.r
      case StoreSend => (!aw && c.aw) || (!w && c.w)
      case StoreResp => c.b
      case _ => true
    }

    /** One cycle of an access that is not finished. */
    function Next(c: Choice): Stage {
      match phase
      case LoadAddr => if c.ar then Stage(LoadData, false, false) else this
      case LoadData => if c.r then Stage(LoadDone, false, false) else this
      case StoreSend =>
        if (aw || c.aw) && (w || c.w) then Stage(StoreResp, false, false) else Stage(StoreSend, aw || c.aw, w || c.w)
      case StoreResp => if c.b then Stage(StoreDone, false, false) else this
      case _ => this
    }
  }

  function StageOf(l: LsuState): Stage {
    Stage(l.phase, l.phase == StoreSend && l.awAcked, l.phase == StoreSend && l.wAcked)
  }

  /** Every answer brings the access closer to its end, and nothing takes it back. */
  lemma StepOwes(g: Ledger, p: Port, req: Option<Access>, c: Choice, beat: nat)
    requires Serves(g, p) && !p.l.Finished() && p.l.phase != Phase.Idle
    ensures var s, s' := StageOf(p.l), StageOf(NextPort(p, req, c, beat).l);
            && s' == s.Next(c) && s'.phase != Phase.Idle && (s'.Finished() <==> s'.Owed() == 0)
            && (if s.Answered(c) then s'.Owed() < s.Owed() else s' == s)
  {
    hide Replicated, Strobe, LineOf;
  }

  /** The stage after cycle `t`; cycle 0 takes the access up. */
  function StageAt(we: bool, schedule: nat -> Choice, t: nat): Stage {
    if t == 0 then Stage(if we then StoreSend else LoadAddr, false, false)
    else StageAt(we, schedule, t - 1).Next(schedule(t))
  }

  /** The memory answers, `n` cycles on, what the unit waits for after cycle `t`. */
  predicate AnsweredAfter(we: bool, schedule: nat -> Choice, t: nat, n: nat) {
    StageAt(we, schedule, t).Answered(schedule(t + 1 + n))
  }

  predicate Finishes(we: bool, schedule: nat -> Choice, t: nat) { StageAt(we, schedule, t).Finished() }

  ghost predicate AnsweredSometime(we: bool, schedule: nat -> Choice, t: nat) {
    exists n: nat :: AnsweredAfter(we, schedule, t, n)
  }

  /** Whatever the unit waits for is answered in the end. */
  ghost predicate Responsive(we: bool, schedule: nat -> Choice) {
    forall t: nat :: AnsweredSometime(we, schedule, t)
  }

  lemma StageWell(we: bool, schedule: nat -> Choice, t: nat)
    ensures var s := StageAt(we, schedule, t);
            s.phase != Phase.Idle && (s.Finished() <==> s.Owed() == 0) && !(s.aw && s.w)
  {}

  /** Without an answer nothing moves. */
  lemma {:induction false} Stuck(we: bool, schedule: nat -> Choice, t: nat, k: nat)
    requires forall n: nat | n < k :: !AnsweredAfter(we, schedule, t, n)
    ensures StageAt(we, schedule, t + k) == StageAt(we, schedule, t)
    decreases k
  {
    if k > 0 {
      Stuck(we, schedule, t, k - 1);
      StageWell(we, schedule, t);
      assert !AnsweredAfter(we, schedule, t, k - 1);
    }
  }

  /** With answers the end is reached from any cycle. */
  lemma {:induction false} ReachEnd(we: bool, schedule: nat -> Choice, t: nat) returns (end: nat)
    requires Responsive(we, schedule)
    ensures end >= t && Finishes(we, schedule, end)
    decreases StageAt(we, schedule, t).Owed()
  {
    StageWell(we, schedule, t);
    if Finishes(we, schedule, t) {
      end := t;
    } else {
      assert AnsweredSometime(we, schedule, t);
      var n := FirstAnswer(we, schedule, t);
      Stuck(we, schedule, t, n);
      StageMoves(we, schedule, t + n);
      end := ReachEnd(we, schedule, t + n + 1);
    }
  }

  lemma StageMoves(we: bool, schedule: nat -> Choice, t: nat)
    requires !Finishes(we, schedule, t) && AnsweredAfter(we, schedule, t, 0)
    ensures StageAt(we, schedule, t + 1).Owed() < StageAt(we, schedule, t).Owed()
  {
    StageWell(we, schedule, t);
  }

  lemma FirstAnswer(we: bool, schedule: nat -> Choice, t: nat) returns (first: nat)
    requires AnsweredSometime(we, schedule, t)
    ensures AnsweredAfter(we, schedule, t, first)
    ensures forall n: nat | n < first :: !AnsweredAfter(we, schedule, t, n)
  {
    hide AnsweredAfter;
    var bound: nat :| AnsweredAfter(we, schedule, t, bound);
    var answered := (n: nat) => AnsweredAfter(we, schedule, t, n);
    first := Least(answered, bound);
    forall n: nat | n < first ensures !AnsweredAfter(we, schedule, t, n) { assert !answered(n); }
  }

  /** An access ends if and only if the memory answers all it is asked. */
  lemma FinishesIffAnswered(we: bool, schedule: nat -> Choice)
    ensures (exists t: nat :: Finishes(we, schedule, t)) <==> Responsive(we, schedule)
  {
    hide StageAt;
    if Responsive(we, schedule) {
      var end := ReachEnd(we, schedule, 0);
    }
    if t: nat :| Finishes(we, schedule, t) {
      forall u: nat ensures AnsweredSometime(we, schedule, u) { EndAnswers(we, schedule, t, u); }
    }
  }

  lemma EndAnswers(we: bool, schedule: nat -> Choice, end: nat, t: nat)
    requires Finishes(we, schedule, end)
    ensures AnsweredSometime(we, schedule, t)
  {
    hide StageAt;
    if Finishes(we, schedule, t) {
      assert AnsweredAfter(we, schedule, t, 0);
    } else if t > end {
      StaysFinished(we, schedule, end, t - end);
    } else if !AnsweredSometime(we, schedule, t) {
      Stuck(we, schedule, t, end - t);
    }
  }

  lemma StaysFinished(we: bool, schedule: nat -> Choice, end: nat, k: nat)
    requires Finishes(we, schedule, end)
    ensures Finishes(we, schedule, end + k)
  {
    if k > 0 { StaysFinished(we, schedule, end, k - 1); }
  }

  /** The simulator's memory: a read answers `latency` cycles after its address, and
      everything else at once. */
  function Simulator(latency: nat): nat -> Choice {
    t => Choice(true, t >= 1 + latency, true, true, true)
  }

  lemma SimulatorResponds(we: bool, latency: nat)
    ensures Responsive(we, Simulator(latency))
  {
    forall t: nat ensures AnsweredSometime(we, Simulator(latency), t) {
      StageWell(we, Simulator(latency), t);
      assert AnsweredAfter(we, Simulator(latency), t, latency);
    }
  }

  // ---- The clocked system -----------------------------------------------------------------

  class DataPort {
    const lsu: Lsu
    const slave: Slave
    ghost var ledger: Ledger
    ghost var before: Words

    ghost function State(): Port
      reads lsu, slave
    {
      Port(lsu.State(), slave.State())
    }

    ghost predicate Valid()
      reads this, lsu, slave, slave.mem
    {
      slave.Valid() && Holds(ledger, before, State(), slave.mem[..])
    }

    constructor ()
      ensures Valid() && lsu.phase == Phase.Idle && fresh(lsu) && fresh(slave) && fresh(slave.mem)
    {
      lsu := new Lsu();
      slave := new Slave();
      ledger := Ledger(Access(false, 0, 0, 0), [], None);
      new;
      before := slave.mem[..];
    }

    /** One clock edge of both. */
    method Clock(req: Option<Access>, c: Choice)
      returns (beat: nat)
      requires Valid()
      modifies this, lsu, slave, slave.mem
      ensures Valid()
      ensures before == NextBefore(old(before), old(State()), old(slave.mem[..]), req)
      ensures State() == NextPort(old(State()), req, c, beat)
      ensures ledger == NextLedger(old(ledger), old(State()), req, c, beat)
      ensures slave.mem[..] == Apply(old(slave.mem[..]), Commits(old(State()).s, PortShake(old(State()), c, beat)))
    {
      hide Holds, NextPort, NextLedger, NextBefore, ReadBeat, Strobed, Shake, Commits, LsuState.Next, NextSlave, Events;
      ghost var p, m := State(), slave.mem[..];
      beat := if slave.reading.Some? then slave.Read(slave.reading.value) else 0;
      assert beat == BeatFor(p.s, m);
      StepHolds(ledger, before, p, m, req, c);
      var rsp := Respond(slave.State(), beat, c);
      var h := Shake(lsu.State(), rsp);
      ledger, before := NextLedger(ledger, p, req, c, beat), NextBefore(before, p, m, req);
      assert h == PortShake(p, c, beat);
      lsu.Clock(req, rsp);
      slave.Clock(h);
      assert State() == NextPort(p, req, c, beat) by { PortIs(p, req, c, beat); }
    }

    /** The cycle after an access is done: the unit falls idle. */
    method Release() returns (beat: nat)
      requires Valid() && lsu.State().Finished()
      modifies this, lsu, slave, slave.mem
      ensures Valid() && lsu.phase == Phase.Idle && slave.mem[..] == old(slave.mem[..])
    {
      hide Holds, NextPort, NextLedger, ReadBeat, Strobed, Shake, LsuState.Next, NextSlave, Events, Commits, PortShake;
      ghost var g, b, p, m := ledger, before, State(), slave.mem[..];
      var c := Choice(false, false, false, false, false);
      beat := Clock(None, c);
      HoldsServes(g, b, p, m);
      Rests(g, p, c, beat);
    }

    /** The pipeline holds an access until it is done. The schedule is arbitrary as
        long as the memory answers in the end. */
    method Perform(a: Access, schedule: nat -> Choice)
      returns (result: Word, ghost cycles: nat)
      requires Valid() && lsu.phase == Phase.Idle && Responsive(a.we, schedule)
      modifies this, lsu, slave, slave.mem
      ensures Valid() && lsu.State().Finished() && Finishes(a.we, schedule, cycles)
      ensures a.we ==>
                && |ledger.log| == 3 && SentOnce(a, ledger.log[..2]) && ledger.log[2] == B
                && (StoreFunct3(a.funct3) ==>
                      FlatStore(old(slave.mem[..]), slave.mem[..], Down(a.funct3, a.addr), Size(a.funct3), a.wdata))
      ensures !a.we ==>
                && |ledger.log| == 2 && ledger.log[0] == Ar(LineOf(a.addr)) && ledger.log[1].R?
                && slave.mem[..] == old(slave.mem[..])
                && (LoadFunct3(a.funct3) && a.addr % 4 + Size(a.funct3) <= 4 ==>
                      result == FlatLoad(old(slave.mem[..]), a.funct3, a.addr))
    {
      hide SentOnce, FlatStore, FlatLoad, StoreFunct3, LoadFunct3, Down, LineOf, Size, ReadBeat, Strobed, Holds,
           LsuState.Result, LsuState.Next, NextSlave, NextPort, Stage.Owed, Events, StageAt, AnsweredAfter, Serves,
           Responsive, AnsweredSometime;
      ghost var m0, p0, g0 := slave.mem[..], State(), ledger;
      var beat := Clock(Some(a), schedule(0));
      TakenUp(g0, p0, a, schedule, beat);
      var t := 1;
      ghost var patience := AnswerOf(a.we, schedule, 0);
      while !lsu.State().Finished()
        invariant Valid() && before == m0 && ledger.access == a && lsu.phase != Phase.Idle && t >= 1
        invariant StageOf(lsu.State()) == StageAt(a.we, schedule, t - 1)
        invariant AnsweredAfter(a.we, schedule, t - 1, patience)
        decreases StageOf(lsu.State()).Owed(), patience
      {
        ghost var p, g := State(), ledger;
        HoldsServes(g, before, p, slave.mem[..]);
        beat := Clock(Some(a), schedule(t));
        patience := StepStage(g, p, a, schedule, t, beat, patience);
        t := t + 1;
      }
      result, cycles := lsu.State().Result(), t - 1;
      Completed(ledger, before, State(), slave.mem[..]);
    }
  }

  lemma Rests(g: Ledger, p: Port, c: Choice, beat: nat)
    requires Serves(g, p) && p.l.Finished()
    ensures NextPort(p, None, c, beat).l.phase == Phase.Idle && Commits(p.s, PortShake(p, c, beat)) == None
  {
    hide Replicated, Strobe, LineOf;
  }

  /** A store and then a load of the same word, against the simulator's memory: the
      memory holds the word and is otherwise what it was, the load found it there. */
  method WriteRead(port: DataPort, addr: Word, wdata: Word, latency: nat) returns (rdata: Word)
    requires port.Valid() && port.lsu.phase == Phase.Idle && addr % 4 == 0
    modifies port, port.lsu, port.slave, port.slave.mem
    ensures port.Valid() && port.lsu.State().Finished()
    ensures FlatStore(old(port.slave.mem[..]), port.slave.mem[..], addr, 4, wdata)
    ensures rdata == wdata == FlatLoad(port.slave.mem[..], 2, addr)
    ensures |port.ledger.log| == 2 && port.ledger.log[0] == Ar(LineOf(addr)) && port.ledger.log[1].R?
  {
    hide Responsive, Simulator, FlatStore, FlatLoad, Holds, LineOf, SentOnce;
    ghost var m0 := port.slave.mem[..];
    SimulatorResponds(true, latency);
    SimulatorResponds(false, latency);
    var done, t := port.Perform(Access(true, addr, wdata, 2), Simulator(latency));
    WordStored(m0, port.slave.mem[..], addr, wdata);
    var beat := port.Release();
    rdata, t := port.Perform(Access(false, addr, 0, 2), Simulator(latency));
  }

  lemma WordStored(m: Words, m': Words, addr: Word, wdata: Word)
    requires addr % 4 == 0 && FlatStore(m, m', Down(2, addr), 4, wdata)
    ensures FlatLoad(m', 2, addr) == wdata
  {
    StoredValue(m, m', 2, addr, wdata);
  }

  lemma HoldsServes(g: Ledger, before: Words, p: Port, m: Words)
    requires Holds(g, before, p, m)
    ensures Serves(g, p)
  {}

  lemma TakenUp(g: Ledger, p: Port, a: Access, schedule: nat -> Choice, beat: nat)
    requires p.l.phase == Phase.Idle
    ensures NextLedger(g, p, Some(a), schedule(0), beat).access == a
    ensures var l := NextPort(p, Some(a), schedule(0), beat).l;
            l.phase != Phase.Idle && StageOf(l) == StageAt(a.we, schedule, 0)
  {}

  lemma AnswerOf(we: bool, schedule: nat -> Choice, t: nat) returns (n: nat)
    requires Responsive(we, schedule)
    ensures AnsweredAfter(we, schedule, t, n)
  {
    assert AnsweredSometime(we, schedule, t);
    n :| AnsweredAfter(we, schedule, t, n);
  }

  /** A cycle follows the schedule's stages, and less is owed or the answer is nearer. */
  lemma StepStage(g: Ledger, p: Port, a: Access, schedule: nat -> Choice, t: nat, beat: nat, patience: nat)
    returns (rest: nat)
    requires Serves(g, p) && !p.l.Finished() && p.l.phase != Phase.Idle && t >= 1
    requires Responsive(a.we, schedule) && AnsweredAfter(a.we, schedule, t - 1, patience)
    requires StageOf(p.l) == StageAt(a.we, schedule, t - 1)
    ensures var l' := NextPort(p, Some(a), schedule(t), beat).l;
            && StageOf(l') == StageAt(a.we, schedule, t) && l'.phase != Phase.Idle
            && AnsweredAfter(a.we, schedule, t, rest)
            && (StageOf(l').Owed() < StageOf(p.l).Owed() || (StageOf(l') == StageOf(p.l) && rest < patience))
  {
    hide Serves, NextPort, Responsive, AnsweredSometime;
    StepOwes(g, p, Some(a), schedule(t), beat);
    rest := Patience(a.we, schedule, t - 1, patience);
  }

  /** How long to wait still: less than before, or afresh after an answer. */
  lemma Patience(we: bool, schedule: nat -> Choice, t: nat, patience: nat) returns (rest: nat)
    requires Responsive(we, schedule) && AnsweredAfter(we, schedule, t, patience)
    ensures AnsweredAfter(we, schedule, t + 1, rest)
    ensures AnsweredAfter(we, schedule, t, 0) || rest < patience
  {
    if AnsweredAfter(we, schedule, t, 0) {
      rest := AnswerOf(we, schedule, t + 1);
    } else {
      Stuck(we, schedule, t, 1);
      rest := patience - 1;
    }
  }

  lemma PortIs(p: Port, req: Option<Access>, c: Choice, beat: nat)
    ensures NextPort(p, req, c, beat) ==
            Port(p.l.Next(req, Respond(p.s, beat, c)), NextSlave(p.s, Shake(p.l, Respond(p.s, beat, c))))
  {}
}
