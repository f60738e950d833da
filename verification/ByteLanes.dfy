/** What the byte lanes of the load/store units mean: which accesses they turn into
    little-endian accesses of a flat byte memory (rtl/stage1/kronos_lsu.sv:73-113). */
module ByteLanes {
  import opened Machine
  import opened Division
  import opened Rv32

  /** Bytes accessed, by funct3. */
  function Size(funct3: nat): nat {
    if funct3 % 4 == 0 then 1 else if funct3 % 4 == 1 then 2 else 4
  }

  predicate StoreFunct3(funct3: nat) { funct3 in {0, 1, 2} }

  predicate LoadFunct3(funct3: nat) { funct3 in {0, 1, 2, 4, 5} }

  predicate Aligned(funct3: nat, addr: Word) { addr % Size(funct3) == 0 }

  // ---- Words as bytes ---------------------------------------------------------------

  lemma PowersOf256()
    ensures Pow2(0) == 1 && Pow2(8) == 0x100 && Pow2(16) == 0x1_0000 && Pow2(24) == 0x100_0000
  {
    Pow2Split(4, 4);
    Pow2Split(8, 8);
    Pow2Split(16, 8);
  }

  lemma DivideTwice(w: Word)
    ensures w / 0x1_0000 == w / 0x100 / 0x100 && w / 0x100_0000 == w / 0x100 / 0x100 / 0x100
  {}

  /** The bytes, peeled off from the bottom. */
  lemma ByteIs(w: Word)
    ensures Byte(w, 0) == w % 0x100 && Byte(w, 1) == w / 0x100 % 0x100
    ensures Byte(w, 2) == w / 0x100 / 0x100 % 0x100 && Byte(w, 3) == w / 0x100 / 0x100 / 0x100
  {
    hide Pow2;
    PowersOf256();
    DivideTwice(w);
    assert w / 0x100_0000 < 0x100;
  }

  /** Four bytes put together. */
  function OfBytes(b0: nat, b1: nat, b2: nat, b3: nat): Word
    requires b0 < 0x100 && b1 < 0x100 && b2 < 0x100 && b3 < 0x100
  {
    b0 + 0x100 * (b1 + 0x100 * (b2 + 0x100 * b3))
  }

  lemma PeelByte(b: nat, rest: nat)
    requires b < 0x100
    ensures (b + 0x100 * rest) % 0x100 == b && (b + 0x100 * rest) / 0x100 == rest
  {}

  lemma BytesOf(b0: nat, b1: nat, b2: nat, b3: nat)
    requires b0 < 0x100 && b1 < 0x100 && b2 < 0x100 && b3 < 0x100
    ensures var w := OfBytes(b0, b1, b2, b3);
            Byte(w, 0) == b0 && Byte(w, 1) == b1 && Byte(w, 2) == b2 && Byte(w, 3) == b3
  {
    hide Byte;
    ByteIs(OfBytes(b0, b1, b2, b3));
    PeelByte(b2, b3);
    PeelByte(b1, b2 + 0x100 * b3);
    PeelByte(b0, b1 + 0x100 * (b2 + 0x100 * b3));
  }

  lemma WordOfBytes(w: Word)
    ensures w == OfBytes(Byte(w, 0), Byte(w, 1), Byte(w, 2), Byte(w, 3))
  {
    hide Byte;
    ByteIs(w);
  }

  /** The strobe of lane `i`. */
  predicate Enabled(be: nat, i: nat) { be / Pow2(i) % 2 == 1 }

  lemma MergeBytes(prev: Word, be: nat, w: Word, i: nat)
    requires i < 4
    ensures Byte(Merge(prev, be, w), i) == Byte(if Enabled(be, i) then w else prev, i)
  {
    hide Byte;
    ByteSmall(w);
    ByteSmall(prev);
    var b0 := Byte(if be % 2 == 1 then w else prev, 0);
    var b1 := Byte(if be / 2 % 2 == 1 then w else prev, 1);
    var b2 := Byte(if be / 4 % 2 == 1 then w else prev, 2);
    var b3 := Byte(if be / 8 % 2 == 1 then w else prev, 3);
    BytesOf(b0, b1, b2, b3);
    assert Pow2(0) == 1 && Pow2(1) == 2 && Pow2(2) == 4 && Pow2(3) == 8;
  }

  lemma ByteSmall(w: Word)
    ensures Byte(w, 0) < 0x100 && Byte(w, 1) < 0x100 && Byte(w, 2) < 0x100 && Byte(w, 3) < 0x100
  {}

  /** Replication puts byte `i` modulo the size on lane `i`. */
  lemma LaneBytes(funct3: nat, w: Word, i: nat)
    requires i < 4
    ensures Byte(StoreLanes(funct3, w), i) == Byte(w, i % Size(funct3))
  {
    hide Byte;
    ByteIs(w);
    if funct3 % 4 == 0 {
      var b := w % 0x100;
      BytesOf(b, b, b, b);
      assert StoreLanes(funct3, w) == OfBytes(b, b, b, b);
    } else if funct3 % 4 == 1 {
      var b0, b1 := w % 0x100, w / 0x100 % 0x100;
      HalfBytes(w);
      BytesOf(b0, b1, b0, b1);
      assert StoreLanes(funct3, w) == OfBytes(b0, b1, b0, b1);
    }
  }

  lemma HalfBytes(w: Word)
    ensures w % 0x1_0000 == w % 0x100 + 0x100 * (w / 0x100 % 0x100)
  {}

  // ---- Stores -----------------------------------------------------------------------

  /** Byte `i` of the word at `addr` after a flat store of `w` at `addr`. */
  function FlatByte(funct3: nat, addr: Word, prev: Word, w: Word, i: nat): nat {
    if addr % 4 <= i < addr % 4 + Size(funct3) then Byte(w, i - addr % 4) else Byte(prev, i)
  }

  ghost predicate StoresFlat(funct3: nat, addr: Word, prev: Word, w: Word) {
    forall i | 0 <= i < 4 ::
      Byte(Merge(prev, ByteEnable(funct3, addr), StoreLanes(funct3, w)), i) == FlatByte(funct3, addr, prev, w, i)
  }

  lemma EnabledIs(funct3: nat, addr: Word, i: nat)
    requires StoreFunct3(funct3) && i < 4
    ensures Enabled(ByteEnable(funct3, addr), i) <==> Size(funct3) == 4 || addr % 4 <= i < addr % 4 + Size(funct3)
  {
    hide Pow2;
    SmallPower(i);
    SmallPower(addr % 4);
  }

  lemma SmallPower(i: nat)
    requires i < 4
    ensures Pow2(i) == if i == 0 then 1 else if i == 1 then 2 else if i == 2 then 4 else 8
  {
    assert Pow2(0) == 1 && Pow2(1) == 2 && Pow2(2) == 4 && Pow2(3) == 8;
  }

  /** The byte on lane `i` after the store, whatever the alignment. */
  lemma StoredByte(funct3: nat, addr: Word, prev: Word, w: Word, i: nat)
    requires StoreFunct3(funct3) && i < 4
    ensures Byte(Merge(prev, ByteEnable(funct3, addr), StoreLanes(funct3, w)), i) ==
            if Size(funct3) == 4 || addr % 4 <= i < addr % 4 + Size(funct3) then Byte(w, i % Size(funct3))
            else Byte(prev, i)
  {
    hide Byte, Merge, StoreLanes, ByteEnable, Enabled;
    EnabledIs(funct3, addr, i);
    MergeBytes(prev, ByteEnable(funct3, addr), StoreLanes(funct3, w), i);
    LaneBytes(funct3, w, i);
  }

  /** Byte enables and replication are a flat store for every word and memory
      exactly at natural alignment. */
  lemma StoreExact(funct3: nat, addr: Word)
    requires StoreFunct3(funct3)
    ensures Aligned(funct3, addr) <==> forall prev: Word, w: Word :: StoresFlat(funct3, addr, prev, w)
  {
    hide Byte, Merge, StoreLanes, ByteEnable;
    if Aligned(funct3, addr) {
      forall prev: Word, w: Word ensures StoresFlat(funct3, addr, prev, w) {
        forall i | 0 <= i < 4 ensures Byte(Merge(prev, ByteEnable(funct3, addr), StoreLanes(funct3, w)), i)
                                      == FlatByte(funct3, addr, prev, w, i) {
          StoredByte(funct3, addr, prev, w, i);
        }
      }
    } else {
      MisalignedStore(funct3, addr);
    }
  }

  /** A half-word at an odd address lands with its bytes swapped or cut off; a word
      off its alignment overwrites the whole aligned word. */
  lemma MisalignedStore(funct3: nat, addr: Word)
    requires StoreFunct3(funct3) && !Aligned(funct3, addr)
    ensures !StoresFlat(funct3, addr, 0, 0x0201)
  {
    hide Byte, Merge, StoreLanes, ByteEnable, FlatByte;
    var i := if Size(funct3) == 4 then 0 else addr % 4;
    MisalignedByte(funct3, addr, i);
    assert Byte(Merge(0, ByteEnable(funct3, addr), StoreLanes(funct3, 0x0201)), i)
        != FlatByte(funct3, addr, 0, 0x0201, i);
  }

  lemma MisalignedByte(funct3: nat, addr: Word, i: nat)
    requires StoreFunct3(funct3) && !Aligned(funct3, addr) && i == if Size(funct3) == 4 then 0 else addr % 4
    ensures Byte(Merge(0, ByteEnable(funct3, addr), StoreLanes(funct3, 0x0201)), i) !=
            FlatByte(funct3, addr, 0, 0x0201, i)
  {
    hide Byte, Merge, StoreLanes, ByteEnable;
    TestBytes();
    StoredByte(funct3, addr, 0, 0x0201, i);
    assert Size(funct3) == 2 ==> addr % 4 % 2 == 1;
  }

  lemma TestBytes()
    ensures Byte(0x0201, 0) == 1 && Byte(0x0201, 1) == 2 && forall i | 0 <= i < 4 :: Byte(0, i) == 0
    ensures Byte(1, 0) == 1 && Byte(1, 1) == 0 && Byte(1, 2) == 0 && Byte(1, 3) == 0
  {
    hide Byte;
    ByteIs(0x0201);
    ByteIs(0);
    ByteIs(1);
  }

  // ---- Loads ------------------------------------------------------------------------

  /** Byte `k` of two consecutive words. */
  function PairByte(raw: Word, next: Word, k: nat): nat { if k < 4 then Byte(raw, k) else Byte(next, k - 4) }

  /** The little-endian value of `n` bytes from byte `k`. */
  function Little(raw: Word, next: Word, k: nat, n: nat): (v: nat)
    decreases n
  {
    if n == 0 then 0 else PairByte(raw, next, k) + 0x100 * Little(raw, next, k + 1, n - 1)
  }

  /** What a flat load of the bytes gives: LB and LH extend the sign. */
  predicate LoadsFlat(funct3: nat, addr: Word, raw: Word, next: Word) {
    var v := Little(raw, next, addr % 4, Size(funct3));
    Extract(funct3, addr, raw) == if funct3 == 0 then SignExtend(8, v) else if funct3 == 1 then SignExtend(16, v) else v
  }

  lemma LittleIs(raw: Word, next: Word, k: nat)
    ensures Little(raw, next, k, 1) == PairByte(raw, next, k)
    ensures Little(raw, next, k, 2) == PairByte(raw, next, k) + 0x100 * PairByte(raw, next, k + 1)
    ensures Little(raw, next, k, 4) ==
            PairByte(raw, next, k) + 0x100 * (PairByte(raw, next, k + 1)
            + 0x100 * (PairByte(raw, next, k + 2) + 0x100 * PairByte(raw, next, k + 3)))
  {
    hide PairByte;
    LittleTwo(raw, next, k);
    LittleTwo(raw, next, k + 2);
    assert Little(raw, next, k, 4) == PairByte(raw, next, k) + 0x100 * Little(raw, next, k + 1, 3);
  }

  lemma LittleTwo(raw: Word, next: Word, k: nat)
    ensures Little(raw, next, k, 1) == PairByte(raw, next, k)
    ensures Little(raw, next, k, 2) == PairByte(raw, next, k) + 0x100 * PairByte(raw, next, k + 1)
  {
    hide PairByte;
    assert Little(raw, next, k + 1, 1) == PairByte(raw, next, k + 1) + 0x100 * Little(raw, next, k + 2, 0);
  }

  lemma ShiftIs(raw: Word, off: nat)
    requires off < 4
    ensures raw / Pow2(off * 8) == if off == 0 then raw else if off == 1 then raw / 0x100
                                   else if off == 2 then raw / 0x100 / 0x100 else raw / 0x100 / 0x100 / 0x100
  {
    hide Pow2;
    PowersOf256();
    DivideTwice(raw);
  }

  /** The shift brings the addressed bytes down. */
  lemma ShiftedBytes(raw: Word, off: nat)
    requires off < 4
    ensures raw / Pow2(off * 8) % 0x100 == Byte(raw, off)
    ensures raw / Pow2(off * 8) % 0x1_0000 == Byte(raw, off) + if off < 3 then 0x100 * Byte(raw, off + 1) else 0
  {
    hide Byte, Pow2;
    ShiftIs(raw, off);
    ByteIs(raw);
    HalfBytes(raw);
    HalfBytes(raw / 0x100);
    HalfBytes(raw / 0x100 / 0x100);
  }

  /** Shifting and extension are a flat load for every memory exactly when the
      access stays inside its aligned word. */
  lemma LoadExact(funct3: nat, addr: Word)
    requires LoadFunct3(funct3)
    ensures addr % 4 + Size(funct3) <= 4 <==> forall raw: Word, next: Word :: LoadsFlat(funct3, addr, raw, next)
  {
    hide LoadsFlat;
    if addr % 4 + Size(funct3) <= 4 {
      forall raw: Word, next: Word ensures LoadsFlat(funct3, addr, raw, next) {
        InsideLoad(funct3, addr, raw, next);
      }
    } else {
      CrossingLoad(funct3, addr);
    }
  }

  lemma InsideLoad(funct3: nat, addr: Word, raw: Word, next: Word)
    requires LoadFunct3(funct3) && addr % 4 + Size(funct3) <= 4
    ensures LoadsFlat(funct3, addr, raw, next)
  {
    hide Byte, SignExtend, Little, Pow2;
    LittleIs(raw, next, addr % 4);
    ShiftedBytes(raw, addr % 4);
    WordOfBytes(raw);
  }

  lemma ShiftedZero(off: nat)
    ensures 0 / Pow2(off * 8) == 0
  {}

  lemma Pow2Of16()
    ensures Pow2(16) == 0x1_0000
  {
    PowersOf256();
  }

  lemma CrossingLoad(funct3: nat, addr: Word)
    requires LoadFunct3(funct3) && addr % 4 + Size(funct3) > 4
    ensures !LoadsFlat(funct3, addr, 0, 1)
  {
    hide Byte, Little, Pow2;
    var off := addr % 4;
    LittleIs(0, 1, off);
    TestBytes();
    ShiftedZero(off);
    Pow2Of16();
  }
}
