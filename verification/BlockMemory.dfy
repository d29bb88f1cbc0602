/** Block memory (class BlockMemory in memory.cpp): an array of 32-bit words behind byte addresses, and the
    little-endian byte array that it implements together with LoadOp. */
module BlockMemory {
  import opened CBus
  import opened Common
  import opened LoadOps

  // ----- Words and their bytes; a byte is a word below 0x100 -----

  function Lane(w: Word, k: int): Word {
    if k == 0 then w & 0xff
    else if k == 1 then (w >> 8) & 0xff
    else if k == 2 then (w >> 16) & 0xff
    else (w >> 24) & 0xff
  }

  function Merge(w: Word, data: Word, mask: Word): Word {
    (w & !mask) | (data & mask)
  }

  predicate IsByte(b: Word) {
    b & 0xff == b
  }

  /** Map's update of one byte lane. */
  function PutLane(w: Word, k: int, b: Word): Word {
    if k == 0 then (w & 0xffffff00) | b
    else if k == 1 then (w & 0xffff00ff) | (b << 8)
    else if k == 2 then (w & 0xff00ffff) | (b << 16)
    else (w & 0x00ffffff) | (b << 24)
  }

  // Pure bit-vector facts, one per placement.

  lemma Merge4(w: Word, d: Word)
    ensures Merge(w, d, 0xffffffff) == d
  {
  }

  lemma Merge20(w: Word, d: Word)
    ensures Lane(Merge(w, d, 0x0000ffff), 0) == Lane(d, 0) && Lane(Merge(w, d, 0x0000ffff), 1) == Lane(d, 1)
    ensures Lane(Merge(w, d, 0x0000ffff), 2) == Lane(w, 2) && Lane(Merge(w, d, 0x0000ffff), 3) == Lane(w, 3)
  {
  }

  lemma Merge216(w: Word, d: Word)
    ensures Lane(Merge(w, d << 16, 0xffff0000), 0) == Lane(w, 0) && Lane(Merge(w, d << 16, 0xffff0000), 1) == Lane(w, 1)
    ensures Lane(Merge(w, d << 16, 0xffff0000), 2) == Lane(d, 0) && Lane(Merge(w, d << 16, 0xffff0000), 3) == Lane(d, 1)
  {
  }

  lemma Merge10(w: Word, d: Word)
    ensures Lane(Merge(w, d, 0x000000ff), 0) == Lane(d, 0) && Lane(Merge(w, d, 0x000000ff), 1) == Lane(w, 1)
    ensures Lane(Merge(w, d, 0x000000ff), 2) == Lane(w, 2) && Lane(Merge(w, d, 0x000000ff), 3) == Lane(w, 3)
  {
  }

  lemma Merge18(w: Word, d: Word)
    ensures Lane(Merge(w, d << 8, 0x0000ff00), 0) == Lane(w, 0) && Lane(Merge(w, d << 8, 0x0000ff00), 1) == Lane(d, 0)
    ensures Lane(Merge(w, d << 8, 0x0000ff00), 2) == Lane(w, 2) && Lane(Merge(w, d << 8, 0x0000ff00), 3) == Lane(w, 3)
  {
  }

  lemma Merge116(w: Word, d: Word)
    ensures Lane(Merge(w, d << 16, 0x00ff0000), 0) == Lane(w, 0) && Lane(Merge(w, d << 16, 0x00ff0000), 1) == Lane(w, 1)
    ensures Lane(Merge(w, d << 16, 0x00ff0000), 2) == Lane(d, 0) && Lane(Merge(w, d << 16, 0x00ff0000), 3) == Lane(w, 3)
  {
  }

  lemma Merge124(w: Word, d: Word)
    ensures Lane(Merge(w, d << 24, 0xff000000), 0) == Lane(w, 0) && Lane(Merge(w, d << 24, 0xff000000), 1) == Lane(w, 1)
    ensures Lane(Merge(w, d << 24, 0xff000000), 2) == Lane(w, 2) && Lane(Merge(w, d << 24, 0xff000000), 3) == Lane(d, 0)
  {
  }

  lemma Shift8(w: Word)
    ensures Lane(w >> 8, 0) == Lane(w, 1)
  {
  }

  lemma Shift16(w: Word)
    ensures Lane(w >> 16, 0) == Lane(w, 2) && Lane(w >> 16, 1) == Lane(w, 3)
  {
  }

  lemma Shift24(w: Word)
    ensures Lane(w >> 24, 0) == Lane(w, 3)
  {
  }

  lemma PutLane0(w: Word, b: Word)
    requires IsByte(b)
    ensures Lane(PutLane(w, 0, b), 0) == b && Lane(PutLane(w, 0, b), 1) == Lane(w, 1)
    ensures Lane(PutLane(w, 0, b), 2) == Lane(w, 2) && Lane(PutLane(w, 0, b), 3) == Lane(w, 3)
  {
  }

  lemma PutLane1(w: Word, b: Word)
    requires IsByte(b)
    ensures Lane(PutLane(w, 1, b), 1) == b && Lane(PutLane(w, 1, b), 0) == Lane(w, 0)
    ensures Lane(PutLane(w, 1, b), 2) == Lane(w, 2) && Lane(PutLane(w, 1, b), 3) == Lane(w, 3)
  {
  }

  lemma PutLane2(w: Word, b: Word)
    requires IsByte(b)
    ensures Lane(PutLane(w, 2, b), 2) == b && Lane(PutLane(w, 2, b), 0) == Lane(w, 0)
    ensures Lane(PutLane(w, 2, b), 1) == Lane(w, 1) && Lane(PutLane(w, 2, b), 3) == Lane(w, 3)
  {
  }

  lemma PutLane3(w: Word, b: Word)
    requires IsByte(b)
    ensures Lane(PutLane(w, 3, b), 3) == b && Lane(PutLane(w, 3, b), 0) == Lane(w, 0)
    ensures Lane(PutLane(w, 3, b), 1) == Lane(w, 1) && Lane(PutLane(w, 3, b), 2) == Lane(w, 2)
  {
  }

  /** The first byte lane of an operation, and how many it covers. */
  function FirstLane(op: LoadOp): int {
    match op
    case SIZE1_SHT8 => 1
    case SIZE1_SHT16 => 2
    case SIZE2_SHT16 => 2
    case SIZE1_SHT24 => 3
    case _ => 0
  }

  function Width(op: LoadOp): int {
    match op
    case DISCARD => 0
    case SIZE4_SHT0 => 4
    case SIZE2_SHT0 => 2
    case SIZE2_SHT16 => 2
    case _ => 1
  }

  lemma ParsedLanes(width: int, addr: int)
    requires IsWidth(width) && addr % width == 0
    ensures FirstLane(Parse(width, addr)) == addr % 4 && Width(Parse(width, addr)) == width
    ensures addr % 4 + width <= 4
  {
    if width == 2 {
      EvenLane(addr);
    }
  }

  lemma EvenLane(addr: int)
    requires addr % 2 == 0
    ensures addr % 4 == 0 || addr % 4 == 2
  {
    var h, q := addr / 2, addr / 4;
    assert addr == 2 * h && addr == 4 * q + addr % 4;
    assert addr % 4 == 2 * (h - 2 * q);
  }

  /** Bit k of a strobe. */
  predicate StrobeBit(strobe: Strobe, k: int)
    requires 0 <= k < 4
  {
    (if k == 0 then strobe else if k == 1 then strobe / 2 else if k == 2 then strobe / 4 else strobe / 8) % 2 == 1
  }

  /** A store under any strobe writes exactly the lanes whose strobe bits are set. */
  lemma StrobeLane(strobe: Strobe, w: Word, data: Word, k: int)
    requires 0 <= k < 4
    ensures Lane(Merge(w, data, STROBE_TO_MASK[strobe]), k) == if StrobeBit(strobe, k) then Lane(data, k) else Lane(w, k)
  {
    var mask := STROBE_TO_MASK[strobe];
    if strobe < 8 {
      LowStrobes(strobe, k, mask);
    } else {
      HighStrobes(strobe, k, mask);
    }
    MaskLane(w, data, mask, k, StrobeBit(strobe, k));
  }

  lemma MaskLane(w: Word, data: Word, mask: Word, k: int, set': bool)
    requires 0 <= k < 4 && Lane(mask, k) == if set' then 0xff else 0
    ensures Lane(Merge(w, data, mask), k) == if set' then Lane(data, k) else Lane(w, k)
  {
    match k
    case 0 => MaskLane0(w, data, mask);
    case 1 => MaskLane1(w, data, mask);
    case 2 => MaskLane2(w, data, mask);
    case 3 => MaskLane3(w, data, mask);
  }

  lemma LowStrobes(strobe: Strobe, k: int, mask: Word)
    requires 0 <= k < 4 && strobe < 8 && mask == STROBE_TO_MASK[strobe]
    ensures Lane(mask, k) == if StrobeBit(strobe, k) then 0xff else 0
  {
    match strobe
    case 0 => assert mask == 0x00000000;
    case 1 => assert mask == 0x000000ff;
    case 2 => assert mask == 0x0000ff00;
    case 3 => assert mask == 0x0000ffff;
    case 4 => assert mask == 0x00ff0000;
    case 5 => assert mask == 0x00ff00ff;
    case 6 => assert mask == 0x00ffff00;
    case 7 => assert mask == 0x00ffffff;
  }

  lemma HighStrobes(strobe: Strobe, k: int, mask: Word)
    requires 0 <= k < 4 && strobe >= 8 && mask == STROBE_TO_MASK[strobe]
    ensures Lane(mask, k) == if StrobeBit(strobe, k) then 0xff else 0
  {
    match strobe
    case 8 => assert mask == 0xff000000;
    case 9 => assert mask == 0xff0000ff;
    case 10 => assert mask == 0xff00ff00;
    case 11 => assert mask == 0xff00ffff;
    case 12 => assert mask == 0xffff0000;
    case 13 => assert mask == 0xffff00ff;
    case 14 => assert mask == 0xffffff00;
    case 15 => assert mask == 0xffffffff;
  }

  // A mask lane of all ones takes the data, one of all zeros keeps the word.

  lemma MaskLane0(w: Word, data: Word, mask: Word)
    ensures mask & 0xff == 0xff ==> Lane(Merge(w, data, mask), 0) == Lane(data, 0)
    ensures mask & 0xff == 0 ==> Lane(Merge(w, data, mask), 0) == Lane(w, 0)
  {
  }

  lemma MaskLane1(w: Word, data: Word, mask: Word)
    ensures (mask >> 8) & 0xff == 0xff ==> Lane(Merge(w, data, mask), 1) == Lane(data, 1)
    ensures (mask >> 8) & 0xff == 0 ==> Lane(Merge(w, data, mask), 1) == Lane(w, 1)
  {
  }

  lemma MaskLane2(w: Word, data: Word, mask: Word)
    ensures (mask >> 16) & 0xff == 0xff ==> Lane(Merge(w, data, mask), 2) == Lane(data, 2)
    ensures (mask >> 16) & 0xff == 0 ==> Lane(Merge(w, data, mask), 2) == Lane(w, 2)
  {
  }

  lemma MaskLane3(w: Word, data: Word, mask: Word)
    ensures (mask >> 24) & 0xff == 0xff ==> Lane(Merge(w, data, mask), 3) == Lane(data, 3)
    ensures (mask >> 24) & 0xff == 0 ==> Lane(Merge(w, data, mask), 3) == Lane(w, 3)
  {
  }

  /** A placed store writes exactly the lanes of its operation. */
  lemma StoreLane(op: LoadOp, w: Word, data: Word, k: int)
    requires op != DISCARD && 0 <= k < 4
    ensures Lane(Merge(w, Place(op, data), STROBE_TO_MASK[StrobeOf(op)]), k)
            == if FirstLane(op) <= k < FirstLane(op) + Width(op) then Lane(data, k - FirstLane(op)) else Lane(w, k)
  {
    StrobeIsMask(op);
    match op
    case SIZE4_SHT0 => Merge4(w, data);
    case SIZE2_SHT0 => Merge20(w, data);
    case SIZE2_SHT16 => Merge216(w, data);
    case SIZE1_SHT0 => Merge10(w, data);
    case SIZE1_SHT8 => Merge18(w, data);
    case SIZE1_SHT16 => Merge116(w, data);
    case SIZE1_SHT24 => Merge124(w, data);
  }

  /** The low lanes of an applied load are the lanes of its operation. */
  lemma LoadLane(op: LoadOp, w: Word, k: int)
    requires 0 <= k < Width(op)
    ensures Lane(Apply(op, w), k) == Lane(w, FirstLane(op) + k)
  {
    match op
    case SIZE1_SHT8 => Shift8(w);
    case SIZE1_SHT16 => Shift16(w);
    case SIZE2_SHT16 => Shift16(w);
    case SIZE1_SHT24 => Shift24(w);
    case _ =>
  }

  // Pure bit-vector facts, one per width written.

  lemma HalfLanes(w: Word, v: Word, k: int)
    requires 0 <= k < 4
    ensures Lane(WriteHalf(w, v), k) == if k < 2 then Lane(v, k) else Lane(w, k)
  {
  }

  lemma ByteLanes(w: Word, v: Word, k: int)
    requires 0 <= k < 4
    ensures Lane(WriteByte(w, v), k) == if k == 0 then Lane(v, k) else Lane(w, k)
  {
  }

  /** A load writes to the variable as many bytes as the access is wide, from the lanes of its operation, and
      leaves the others. */
  lemma StoredLane(op: LoadOp, w: Word, cell: Word, k: int)
    requires 0 <= k < 4
    ensures Lane(Stored(op, w, cell), k) == if k < Width(op) then Lane(w, FirstLane(op) + k) else Lane(cell, k)
  {
    match op
    case DISCARD =>
    case SIZE4_SHT0 => LoadLane(op, w, k);
    case SIZE2_SHT0 => StoredHalf(op, w, cell, k);
    case SIZE2_SHT16 => StoredHalf(op, w, cell, k);
    case _ => StoredByte(op, w, cell, k);
  }

  lemma StoredHalf(op: LoadOp, w: Word, cell: Word, k: int)
    requires 0 <= k < 4 && Width(op) == 2
    ensures Lane(Stored(op, w, cell), k) == if k < 2 then Lane(w, FirstLane(op) + k) else Lane(cell, k)
  {
    if k < 2 {
      LoadLane(op, w, k);
    }
    HalfLanes(cell, Apply(op, w), k);
  }

  lemma StoredByte(op: LoadOp, w: Word, cell: Word, k: int)
    requires 0 <= k < 4 && Width(op) == 1
    ensures Lane(Stored(op, w, cell), k) == if k == 0 then Lane(w, FirstLane(op)) else Lane(cell, k)
  {
    if k == 0 {
      LoadLane(op, w, 0);
    }
    ByteLanes(cell, Apply(op, w), k);
  }

  /** The words agree in the k-th lane of the operation. */
  predicate AgreeAt(op: LoadOp, a: Word, b: Word, k: int) {
    Lane(a, FirstLane(op) + k) == Lane(b, FirstLane(op) + k)
  }

  predicate Agree(op: LoadOp, a: Word, b: Word) {
    && (0 < Width(op) ==> AgreeAt(op, a, b, 0)) && (1 < Width(op) ==> AgreeAt(op, a, b, 1))
    && (2 < Width(op) ==> AgreeAt(op, a, b, 2)) && (3 < Width(op) ==> AgreeAt(op, a, b, 3))
  }

  lemma SameNone(a: Word, b: Word)
    ensures SameUnder(a, b, MaskOf(DISCARD)) <==> Agree(DISCARD, a, b)
  {
  }

  lemma NoneDiffers(a: Word, b: Word)
    ensures (a ^ b) & 0xffffffff == 0 <==> a == b
  {
  }

  lemma AllLanesAgree(a: Word, b: Word)
    requires Agree(SIZE4_SHT0, a, b)
    ensures a == b
  {
  }

  lemma Same4(a: Word, b: Word)
    ensures SameUnder(a, b, MaskOf(SIZE4_SHT0)) <==> Agree(SIZE4_SHT0, a, b)
  {
    NoneDiffers(a, b);
    if a == b {
      assert Agree(SIZE4_SHT0, a, a);
    } else if Agree(SIZE4_SHT0, a, b) {
      AllLanesAgree(a, b);
      assert false;
    }
  }

  lemma Same20(a: Word, b: Word)
    ensures SameUnder(a, b, MaskOf(SIZE2_SHT0)) <==> Agree(SIZE2_SHT0, a, b)
  {
  }

  lemma Same216(a: Word, b: Word)
    ensures SameUnder(a, b, MaskOf(SIZE2_SHT16)) <==> Agree(SIZE2_SHT16, a, b)
  {
  }

  lemma Same10(a: Word, b: Word)
    ensures SameUnder(a, b, MaskOf(SIZE1_SHT0)) <==> Agree(SIZE1_SHT0, a, b)
  {
  }

  lemma Same18(a: Word, b: Word)
    ensures SameUnder(a, b, MaskOf(SIZE1_SHT8)) <==> Agree(SIZE1_SHT8, a, b)
  {
  }

  lemma Same116(a: Word, b: Word)
    ensures SameUnder(a, b, MaskOf(SIZE1_SHT16)) <==> Agree(SIZE1_SHT16, a, b)
  {
  }

  lemma Same124(a: Word, b: Word)
    ensures SameUnder(a, b, MaskOf(SIZE1_SHT24)) <==> Agree(SIZE1_SHT24, a, b)
  {
  }

  /** Agreeing under the mask of an operation is agreeing in its lanes. */
  lemma MaskLanes(op: LoadOp, a: Word, b: Word)
    ensures SameUnder(a, b, MaskOf(op)) <==> Agree(op, a, b)
  {
    match op
    case DISCARD => SameNone(a, b);
    case SIZE4_SHT0 => Same4(a, b);
    case SIZE2_SHT0 => Same20(a, b);
    case SIZE2_SHT16 => Same216(a, b);
    case SIZE1_SHT0 => Same10(a, b);
    case SIZE1_SHT8 => Same18(a, b);
    case SIZE1_SHT16 => Same116(a, b);
    case SIZE1_SHT24 => Same124(a, b);
  }

  lemma Placed8(d: Word)
    ensures Lane(d << 8, 1) == Lane(d, 0)
  {
  }

  lemma Placed16(d: Word)
    ensures Lane(d << 16, 2) == Lane(d, 0) && Lane(d << 16, 3) == Lane(d, 1)
  {
  }

  lemma Placed24(d: Word)
    ensures Lane(d << 24, 3) == Lane(d, 0)
  {
  }

  /** Data are placed in the lanes of the operation. */
  lemma PlacedLane(op: LoadOp, d: Word, k: int)
    requires 0 <= k < Width(op)
    ensures Lane(Place(op, d), FirstLane(op) + k) == Lane(d, k)
  {
    match op
    case SIZE2_SHT16 =>
      Placed16(d);
      assert k == 0 || k == 1;
    case SIZE1_SHT8 =>
      Placed8(d);
      assert k == 0;
    case SIZE1_SHT16 =>
      Placed16(d);
      assert k == 0;
    case SIZE1_SHT24 =>
      Placed24(d);
      assert k == 0;
    case _ =>
  }

  /** The k-th lane of the operation in the word holds byte k of the data. */
  predicate Expected(op: LoadOp, d: Word, w: Word, k: int) {
    Lane(w, FirstLane(op) + k) == Lane(d, k)
  }

  lemma PlacedAgreesAt(op: LoadOp, d: Word, w: Word, k: int)
    requires 0 <= k < Width(op)
    ensures AgreeAt(op, Place(op, d), w, k) <==> Expected(op, d, w, k)
  {
    PlacedLane(op, d, k);
  }

  /** The masked comparison of placed data is the comparison of their low bytes with those of the operation. */
  lemma PlacedAgrees(op: LoadOp, d: Word, w: Word)
    ensures SameUnder(Place(op, d), w, MaskOf(op)) <==> forall k :: 0 <= k < Width(op) ==> Expected(op, d, w, k)
  {
    MaskLanes(op, Place(op, d), w);
    forall k | 0 <= k < Width(op)
      ensures AgreeAt(op, Place(op, d), w, k) <==> Expected(op, d, w, k)
    {
      PlacedAgreesAt(op, d, w, k);
    }
    AgreeIsAll(op, Place(op, d), w, d);
  }

  lemma AgreeIsAll(op: LoadOp, a: Word, b: Word, d: Word)
    requires forall k :: 0 <= k < Width(op) ==> (AgreeAt(op, a, b, k) <==> Expected(op, d, b, k))
    ensures Agree(op, a, b) <==> forall k :: 0 <= k < Width(op) ==> Expected(op, d, b, k)
  {
    if !Agree(op, a, b) {
      var k := if !AgreeAt(op, a, b, 0) then 0 else if !AgreeAt(op, a, b, 1) then 1 else if !AgreeAt(op, a, b, 2) then 2 else 3;
      assert !Expected(op, d, b, k);
    }
  }

  lemma PutLane0At(w: Word, b: Word, k: int)
    requires IsByte(b) && 0 <= k < 4
    ensures Lane(PutLane(w, 0, b), k) == if k == 0 then b else Lane(w, k)
  {
    PutLane0(w, b);
    match k
    case 0 =>
    case 1 =>
    case 2 =>
    case 3 =>
  }

  lemma PutLane1At(w: Word, b: Word, k: int)
    requires IsByte(b) && 0 <= k < 4
    ensures Lane(PutLane(w, 1, b), k) == if k == 1 then b else Lane(w, k)
  {
    PutLane1(w, b);
    match k
    case 0 =>
    case 1 =>
    case 2 =>
    case 3 =>
  }

  lemma PutLane2At(w: Word, b: Word, k: int)
    requires IsByte(b) && 0 <= k < 4
    ensures Lane(PutLane(w, 2, b), k) == if k == 2 then b else Lane(w, k)
  {
    PutLane2(w, b);
    match k
    case 0 =>
    case 1 =>
    case 2 =>
    case 3 =>
  }

  lemma PutLane3At(w: Word, b: Word, k: int)
    requires IsByte(b) && 0 <= k < 4
    ensures Lane(PutLane(w, 3, b), k) == if k == 3 then b else Lane(w, k)
  {
    PutLane3(w, b);
    match k
    case 0 =>
    case 1 =>
    case 2 =>
    case 3 =>
  }

  lemma PutLaneAt(w: Word, j: int, b: Word, k: int)
    requires IsByte(b) && 0 <= j < 4 && 0 <= k < 4
    ensures Lane(PutLane(w, j, b), k) == if k == j then b else Lane(w, k)
  {
    match j
    case 0 => PutLane0At(w, b, k);
    case 1 => PutLane1At(w, b, k);
    case 2 => PutLane2At(w, b, k);
    case 3 => PutLane3At(w, b, k);
  }

  // ----- The memory operations on the word array; addresses are relative to the offset -----

  function StoreWord(ws: seq<Word>, addr: int, data: Word, mask: Word): seq<Word>
    requires 0 <= addr < 4 * |ws|
  {
    ws[addr / 4 := Merge(ws[addr / 4], data, mask)]
  }

  function MapBytes(ws: seq<Word>, addr: int, bytes: seq<Word>): (r: seq<Word>)
    requires 0 <= addr && addr + |bytes| <= 4 * |ws|
    ensures |r| == |ws|
    decreases |bytes|
  {
    if bytes == [] then ws
    else MapBytes(ws[addr / 4 := PutLane(ws[addr / 4], addr % 4, bytes[0])], addr + 1, bytes[1..])
  }

  /** 32-bit subtraction of the offset. */
  function Relative(addr: int, offset: int): int {
    (addr - offset) % TWO_32
  }

  /** From the offset on, byte r of the memory is at offset + r. */
  lemma RelativeIsDistance(offset: int, r: int)
    requires 0 <= r < TWO_32
    ensures Relative(offset + r, offset) == r && Relative(offset + r - TWO_32, offset) == r
  {
  }

  /** The memory object of the source, updated in place. */
  class Memory {
    const size: nat
    const offset: int
    const mem: array<Word>
    const saved: array<Word>

    ghost predicate Valid()
      reads this
    {
      mem.Length == saved.Length && size == 4 * mem.Length && mem != saved && size <= TWO_32
    }

    constructor (size: nat, offset: int, data: seq<Word>)
      requires size % 4 == 0 && size <= TWO_32 && |data| <= size && 0 <= offset < TWO_32
      ensures Valid() && this.size == size && this.offset == offset && fresh(mem) && fresh(saved)
      ensures mem[..] == saved[..] == MapBytes(seq(size / 4, _ => 0), 0, data)
    {
      this.size, this.offset := size, offset;
      mem := new Word[size / 4](_ => 0);
      saved := new Word[size / 4](_ => 0);
      new;
      assert mem[..] == seq(size / 4, _ => 0);
      assert Relative(offset, offset) == 0;
      Map(offset, data);
      Save();
    }

    method Save()
      requires Valid()
      modifies saved
      ensures saved[..] == mem[..]
    {
      forall i | 0 <= i < mem.Length {
        saved[i] := mem[i];
      }
    }

    method Reset()
      requires Valid()
      modifies mem
      ensures mem[..] == saved[..]
    {
      forall i | 0 <= i < mem.Length {
        mem[i] := saved[i];
      }
    }

    method Map(address: int, data: seq<Word>)
      requires Valid() && Relative(address, offset) + |data| <= size
      modifies mem
      ensures mem[..] == MapBytes(old(mem[..]), Relative(address, offset), data)
    {
      var addr := Relative(address, offset);
      var i := 0;
      while i < |data|
        invariant 0 <= i <= |data|
        invariant MapBytes(mem[..], addr + i, data[i..]) == MapBytes(old(mem[..]), addr, data)
      {
        var index := (addr + i) / 4;
        ghost var ws, rest := mem[..], data[i..];
        mem[index] := PutLane(mem[index], (addr + i) % 4, data[i]);
        assert rest[0] == data[i] && rest[1..] == data[i + 1..];
        assert mem[..] == ws[index := PutLane(ws[index], (addr + i) % 4, data[i])];
        i := i + 1;
      }
    }

    method Load(address: int) returns (value: Word)
      requires Valid() && Relative(address, offset) < size
      ensures value == mem[..][Relative(address, offset) / 4]
    {
      var addr := Relative(address, offset);
      value := mem[addr / 4];
    }

    method Store(address: int, data: Word, mask: Word)
      requires Valid() && Relative(address, offset) < size
      modifies mem
      ensures mem[..] == StoreWord(old(mem[..]), Relative(address, offset), data, mask)
    {
      var addr := Relative(address, offset);
      mem[addr / 4] := Merge(mem[addr / 4], data, mask);
    }
  }

  // ----- The byte array -----

  /** The bytes of the memory, little end first. */
  function Bytes(ws: seq<Word>): seq<Word> {
    seq(4 * |ws|, a requires 0 <= a < 4 * |ws| => Lane(ws[a / 4], a % 4))
  }

  datatype Op =
    | MapOp(addr: int, bytes: seq<Word>)
    | StoreOp(width: int, addr: int, data: Word)

  /** Maps stay inside the memory and carry bytes; stores are 1, 2 or 4 bytes wide, aligned, and inside. */
  predicate Allowed(op: Op, size: int) {
    match op
    case MapOp(addr, bytes) => 0 <= addr && addr + |bytes| <= size && forall i :: 0 <= i < |bytes| ==> IsByte(bytes[i])
    case StoreOp(width, addr, data) => IsWidth(width) && addr % width == 0 && 0 <= addr && addr + width <= size
  }

  /** The operation as the simulator performs it: on words, with strobe, mask and placement. */
  function OnWords(ws: seq<Word>, op: Op): (r: seq<Word>)
    requires Allowed(op, 4 * |ws|)
    ensures |r| == |ws|
  {
    match op
    case MapOp(addr, bytes) => MapBytes(ws, addr, bytes)
    case StoreOp(width, addr, data) =>
      var lop := Parse(width, addr);
      StoreWord(ws, addr, Place(lop, data), STROBE_TO_MASK[StrobeOf(lop)])
  }

  function Overwrite(bs: seq<Word>, addr: int, new': seq<Word>): (r: seq<Word>)
    requires 0 <= addr && addr + |new'| <= |bs|
    ensures |r| == |bs|
  {
    bs[..addr] + new' + bs[addr + |new'|..]
  }

  /** The low bytes of a word, little end first. */
  function LowBytes(data: Word, width: nat): (r: seq<Word>)
    ensures |r| == width
  {
    seq(width, k => Lane(data, k))
  }

  /** The operation as it is meant: the bytes named are overwritten and no others. */
  function OnBytes(bs: seq<Word>, op: Op): (r: seq<Word>)
    requires Allowed(op, |bs|)
    ensures |r| == |bs|
  {
    match op
    case MapOp(addr, bytes) => Overwrite(bs, addr, bytes)
    case StoreOp(width, addr, data) => Overwrite(bs, addr, LowBytes(data, width))
  }

  lemma {:induction false} MapRefines(ws: seq<Word>, addr: int, bytes: seq<Word>, a: int)
    requires 0 <= addr && addr + |bytes| <= 4 * |ws| && 0 <= a < 4 * |ws|
    requires forall i :: 0 <= i < |bytes| ==> IsByte(bytes[i])
    ensures var r := MapBytes(ws, addr, bytes);
            Lane(r[a / 4], a % 4) == if addr <= a < addr + |bytes| then bytes[a - addr] else Lane(ws[a / 4], a % 4)
    decreases |bytes|
  {
    if bytes != [] {
      var i := addr / 4;
      var ws' := ws[i := PutLane(ws[i], addr % 4, bytes[0])];
      MapRefines(ws', addr + 1, bytes[1..], a);
      PutLaneAt(ws[i], addr % 4, bytes[0], a % 4);
      assert a == 4 * (a / 4) + a % 4 && addr == 4 * i + addr % 4;
    }
  }

  lemma StoreRefines(ws: seq<Word>, width: int, addr: int, data: Word, a: int)
    requires Allowed(StoreOp(width, addr, data), 4 * |ws|) && 0 <= a < 4 * |ws|
    ensures var r := OnWords(ws, StoreOp(width, addr, data));
            Lane(r[a / 4], a % 4) == if addr <= a < addr + width then Lane(data, a - addr) else Lane(ws[a / 4], a % 4)
  {
    ParsedLanes(width, addr);
    StoreLane(Parse(width, addr), ws[addr / 4], data, a % 4);
    assert a == 4 * (a / 4) + a % 4 && addr == 4 * (addr / 4) + addr % 4;
  }

  lemma OverwriteAt(bs: seq<Word>, addr: int, new': seq<Word>, a: int)
    requires 0 <= addr && addr + |new'| <= |bs| && 0 <= a < |bs|
    ensures Overwrite(bs, addr, new')[a] == if addr <= a < addr + |new'| then new'[a - addr] else bs[a]
  {
  }

  lemma OpRefinesAt(ws: seq<Word>, op: Op, a: int)
    requires Allowed(op, 4 * |ws|) && 0 <= a < 4 * |ws|
    ensures Bytes(OnWords(ws, op))[a] == OnBytes(Bytes(ws), op)[a]
  {
    assert Bytes(ws)[a] == Lane(ws[a / 4], a % 4);
    match op
    case MapOp(addr, bytes) =>
      MapRefines(ws, addr, bytes, a);
      OverwriteAt(Bytes(ws), addr, bytes, a);
    case StoreOp(width, addr, data) =>
      StoreRefines(ws, width, addr, data, a);
      OverwriteAt(Bytes(ws), addr, LowBytes(data, width), a);
  }

  /** Each operation on the words is the operation on the bytes. */
  lemma OpRefines(ws: seq<Word>, op: Op)
    requires Allowed(op, 4 * |ws|)
    ensures Bytes(OnWords(ws, op)) == OnBytes(Bytes(ws), op)
  {
    forall a | 0 <= a < 4 * |ws|
      ensures Bytes(OnWords(ws, op))[a] == OnBytes(Bytes(ws), op)[a]
    {
      OpRefinesAt(ws, op, a);
    }
  }

  predicate AllAllowed(ops: seq<Op>, size: int) {
    forall i :: 0 <= i < |ops| ==> Allowed(ops[i], size)
  }

  function RunWords(ws: seq<Word>, ops: seq<Op>): (r: seq<Word>)
    requires AllAllowed(ops, 4 * |ws|)
    ensures |r| == |ws|
    decreases |ops|
  {
    if ops == [] then ws else RunWords(OnWords(ws, ops[0]), ops[1..])
  }

  function RunBytes(bs: seq<Word>, ops: seq<Op>): (r: seq<Word>)
    requires AllAllowed(ops, |bs|)
    ensures |r| == |bs|
    decreases |ops|
  {
    if ops == [] then bs else RunBytes(OnBytes(bs, ops[0]), ops[1..])
  }

  lemma {:induction false} RunRefines(ws: seq<Word>, ops: seq<Op>)
    requires AllAllowed(ops, 4 * |ws|)
    ensures Bytes(RunWords(ws, ops)) == RunBytes(Bytes(ws), ops)
    decreases |ops|
  {
    if ops != [] {
      OpRefines(ws, ops[0]);
      RunRefines(OnWords(ws, ops[0]), ops[1..]);
    }
  }

  lemma ByteAt(ws: seq<Word>, a: int)
    requires 0 <= a < 4 * |ws|
    ensures Bytes(ws)[a] == Lane(ws[a / 4], a % 4)
  {
  }

  lemma InOneWord(addr: int, k: int)
    requires 0 <= k && addr % 4 + k < 4
    ensures (addr + k) / 4 == addr / 4 && (addr + k) % 4 == addr % 4 + k
  {
  }

  /** After any sequence of maps and aligned stores, an aligned load, taken through LoadOp and cut to its width,
      gives exactly the bytes that a byte array would hold there. */
  lemma LoadsReadBytes(ws: seq<Word>, ops: seq<Op>, width: int, addr: int, k: int)
    requires AllAllowed(ops, 4 * |ws|)
    requires IsWidth(width) && addr % width == 0 && 0 <= addr && addr + width <= 4 * |ws| && 0 <= k < width
    ensures Lane(Apply(Parse(width, addr), RunWords(ws, ops)[addr / 4]), k) == RunBytes(Bytes(ws), ops)[addr + k]
  {
    RunRefines(ws, ops);
    ParsedLanes(width, addr);
    var r := RunWords(ws, ops);
    LoadLane(Parse(width, addr), r[addr / 4], k);
    InOneWord(addr, k);
    ByteAt(r, addr + k);
  }

  /** The variable that such a load leaves behind: the bytes of the byte array, and above them what it held. */
  lemma VariablesTakeBytes(ws: seq<Word>, ops: seq<Op>, width: int, addr: int, cell: Word, k: int)
    requires AllAllowed(ops, 4 * |ws|)
    requires IsWidth(width) && addr % width == 0 && 0 <= addr && addr + width <= 4 * |ws| && 0 <= k < 4
    ensures Lane(Stored(Parse(width, addr), RunWords(ws, ops)[addr / 4], cell), k)
            == if k < width then RunBytes(Bytes(ws), ops)[addr + k] else Lane(cell, k)
  {
    ParsedLanes(width, addr);
    StoredLane(Parse(width, addr), RunWords(ws, ops)[addr / 4], cell, k);
    if k < width {
      LoadsReadBytes(ws, ops, width, addr, k);
      LoadLane(Parse(width, addr), RunWords(ws, ops)[addr / 4], k);
    }
  }
}
