/** Interrupt registration and dispatch (irq.c, with ffs of irq.h): one list of actions for each of 256 lines,
    and the enable, clear and status registers of the two interrupt controllers. */
module Irq {
  import opened Common

  // ----- ffs -----

  function One(k: Word): Word
    requires k < 32
  {
    (1 as Word) << k
  }

  lemma OneFacts(k: Word)
    requires k < 32
    ensures One(k) != 0 && One(k) & (One(k) - 1) == 0
    ensures if k < 31 then One(k + 1) == One(k) << 1 && One(k) < 0x80000000 else One(k) == 0x80000000
  {
  }

  /** The clz instruction on the n-bit word in the top bits of x. */
  function LeadingZeros(x: Word, n: nat): Word
    decreases n
  {
    if n == 0 || x >= 0x80000000 then 0 else 1 + LeadingZeros(x << 1, n - 1)
  }

  function Fls(x: Word): Word {
    32 - LeadingZeros(x, 32)
  }

  function Ffs(x: Word): Word {
    if x == 0 then 0 else Fls(x & (0 - x))
  }

  lemma StepAsInt(k: Word)
    requires k < 31
    ensures (k + 1) as int == k as int + 1
  {
  }

  lemma {:induction false} LeadingZerosOfOne(k: Word, p: Word, n: nat)
    requires k < 32 && p == One(k) && 31 - k as int < n
    ensures LeadingZeros(p, n) == 31 - k
    decreases 31 - k as int
  {
    OneFacts(k);
    if k < 31 {
      StepAsInt(k);
      LeadingZerosOfOne(k + 1, p << 1, n - 1);
    }
  }

  /** p is the lowest one of x: negation keeps it and flips everything above. */
  lemma LowestAlone(x: Word, p: Word)
    requires p & (p - 1) == 0 && x & p != 0 && x & (p - 1) == 0
    ensures x & (0 - x) == p
  {
  }

  lemma BelowGrows(x: Word, p: Word)
    requires p & (p - 1) == 0 && p != 0 && x & p == 0 && x & (p - 1) == 0
    ensures if p < 0x80000000 then x & ((p << 1) - 1) == 0 else x == 0
  {
  }

  /** Bit k is the lowest one of x. */
  predicate IsLowest(x: Word, k: Word) {
    k < 32 && x & One(k) != 0 && x & (One(k) - 1) == 0
  }

  /** The lowest one of x, when there is none below bit k; p is One(k). */
  lemma {:induction false} FindLowest(x: Word, k: Word, p: Word) returns (r: Word)
    requires x != 0 && k < 32 && p == One(k) && x & (p - 1) == 0
    ensures IsLowest(x, r)
    decreases 32 - k as int
  {
    if x & p != 0 {
      r := k;
    } else {
      OneFacts(k);
      BelowGrows(x, p);
      StepAsInt(k);
      r := FindLowest(x, k + 1, p << 1);
    }
  }

  /** ffs counts from 1 to the lowest one. */
  lemma FfsIsLowest(x: Word) returns (k: Word)
    requires x != 0
    ensures IsLowest(x, k) && Ffs(x) == k + 1
  {
    assert One(0) == 1;
    k := FindLowest(x, 0, 1);
    OneFacts(k);
    LowestAlone(x, One(k));
    LeadingZerosOfOne(k, One(k), 32);
  }

  // ----- Words as bits, lowest first -----

  function Bits(x: Word, n: nat): (s: seq<bool>)
    ensures |s| == n
    decreases n
  {
    if n == 0 then [] else [x & 1 == 1] + Bits(x >> 1, n - 1)
  }

  lemma Below(k: Word)
    requires 0 < k < 32
    ensures (k - 1) as int == k as int - 1 && One(k) == One(k - 1) << 1 && One(k - 1) < 0x80000000
  {
  }

  lemma ClearHalf(x: Word, y: Word, h: Word, g: Word, q: Word, c: Word, d: Word)
    requires c == !(q << 1) && d == !q && y == x & c && h == x >> 1 && g == y >> 1
    ensures g == h & d && y & 1 == x & 1
  {
  }

  lemma SetHalf(x: Word, y: Word, p: Word, q: Word)
    requires p == q << 1 && y == x | p && q < 0x80000000
    ensures y >> 1 == (x >> 1) | q && y & 1 == x & 1
  {
  }

  lemma OneZero()
    ensures One(0) == 1
  {
  }

  lemma ClearLow(x: Word, y: Word)
    requires y == x & !1
    ensures y >> 1 == x >> 1 && y & 1 == 0
  {
  }

  lemma SetLow(x: Word, y: Word)
    requires y == x | 1
    ensures y >> 1 == x >> 1 && y & 1 == 1
  {
  }

  /** The bits of x are its lowest and those of its half h. */
  lemma BitsFrom(x: Word, h: Word, n: nat)
    requires h == x >> 1 && n > 0
    ensures Bits(x, n) == [x & 1 == 1] + Bits(h, n - 1)
  {
  }

  /** From the halves h and g of x and y to x and y. */
  lemma BitsUpdated(x: Word, y: Word, h: Word, g: Word, n: nat, i: nat, v: bool)
    requires h == x >> 1 && g == y >> 1 && i < n
    requires if i == 0 then g == h && (y & 1 == 1) == v
             else (y & 1 == 1) == (x & 1 == 1) && Bits(g, n - 1) == Bits(h, n - 1)[i - 1 := v]
    ensures Bits(y, n) == Bits(x, n)[i := v]
  {
    BitsFrom(x, h, n);
    BitsFrom(y, g, n);
  }

  lemma ClearedLow(x: Word, y: Word, n: nat)
    requires y == x & !1 && 0 < n
    ensures Bits(y, n) == Bits(x, n)[0 := false]
  {
    ClearLow(x, y);
    BitsUpdated(x, y, x >> 1, y >> 1, n, 0, false);
  }

  lemma SetLowest(x: Word, y: Word, n: nat)
    requires y == x | 1 && 0 < n
    ensures Bits(y, n) == Bits(x, n)[0 := true]
  {
    SetLow(x, y);
    BitsUpdated(x, y, x >> 1, y >> 1, n, 0, true);
  }

  /** x &= ~(1 << k) clears bit k; i is k, and c masks every other bit. */
  lemma {:induction false} BitsCleared(x: Word, y: Word, k: Word, i: nat, c: Word, n: nat)
    requires k < 32 && i == k as int < n && c == !One(k) && y == x & c
    ensures Bits(y, n) == Bits(x, n)[i := false]
    decreases n
  {
    if k == 0 {
      OneZero();
      ClearedLow(x, y, n);
    } else {
      var h, g, l, d := x >> 1, y >> 1, k - 1, !One(k - 1);
      Below(k);
      ClearHalf(x, y, h, g, One(k - 1), c, d);
      BitsCleared(h, g, l, i - 1, d, n - 1);
      BitsUpdated(x, y, h, g, n, i, false);
    }
  }

  /** x |= 1 << k sets bit k; i is k. */
  lemma {:induction false} BitsSet(x: Word, y: Word, k: Word, i: nat, p: Word, n: nat)
    requires k < 32 && i == k as int < n && p == One(k) && y == x | p
    ensures Bits(y, n) == Bits(x, n)[i := true]
    decreases n
  {
    if k == 0 {
      OneZero();
      SetLowest(x, y, n);
    } else {
      Below(k);
      var h, g, l, q := x >> 1, y >> 1, k - 1, One(k - 1);
      SetHalf(x, y, p, q);
      BitsSet(h, g, l, i - 1, q, n - 1);
      BitsUpdated(x, y, h, g, n, i, true);
    }
  }

  /** The first true in s, or |s|. */
  function First(s: seq<bool>): (r: nat)
    ensures r <= |s| && (r < |s| ==> s[r]) && forall j :: 0 <= j < r ==> !s[j]
  {
    if s == [] || s[0] then 0
    else
      var r := First(s[1..]);
      assert forall j :: 0 < j < 1 + r ==> s[j] == s[1..][j - 1];
      1 + r
  }

  lemma {:induction false} ZeroHasNone(n: nat)
    ensures First(Bits(0, n)) == n
    decreases n
  {
    if n > 0 {
      ZeroHasNone(n - 1);
      HalfOfZero();
      assert Bits(0, n)[1..] == Bits(0, n - 1);
    }
  }

  lemma HalfOfZero()
    ensures (0 as Word) >> 1 == 0 && (0 as Word) & 1 == 0
  {
  }

  lemma LowestHalf(x: Word, k: Word)
    requires IsLowest(x, k)
    ensures if k == 0 then x & 1 == 1 else x & 1 != 1 && IsLowest(x >> 1, k - 1)
  {
  }

  lemma {:induction false} LowestIsFirst(x: Word, k: Word, n: nat)
    requires IsLowest(x, k) && k as int < n
    ensures First(Bits(x, n)) == k as int
    decreases n
  {
    LowestHalf(x, k);
    if k != 0 {
      Below(k);
      LowestIsFirst(x >> 1, k - 1, n - 1);
      assert Bits(x, n)[1..] == Bits(x >> 1, n - 1);
    }
  }

  /** ffs counts from 1 to the first one. */
  lemma FfsIsFirst(x: Word)
    ensures Ffs(x) as int == if First(Bits(x, 32)) == 32 then 0 else First(Bits(x, 32)) + 1
  {
    if x == 0 {
      ZeroHasNone(32);
    } else {
      var k := FfsIsLowest(x);
      WordAsInt(k);
      LowestIsFirst(x, k, 32);
    }
  }

  lemma WordAsInt(k: Word)
    requires k < 32
    ensures k as int < 32 && (k + 1) as int == k as int + 1
  {
  }

  lemma TestHalf(x: Word, k: Word)
    requires k < 32
    ensures if k == 0 then x & One(0) != 0 <==> x & 1 == 1 else x & One(k) != 0 <==> (x >> 1) & One(k - 1) != 0
  {
  }

  /** Bit k, as a test with 1 << k. */
  lemma {:induction false} BitIsTest(x: Word, k: Word, n: nat)
    requires k < 32 && k as int < n
    ensures Bits(x, n)[k as int] <==> x & One(k) != 0
    decreases n
  {
    TestHalf(x, k);
    if k != 0 {
      Below(k);
      BitIsTest(x >> 1, k - 1, n - 1);
    }
  }

  lemma IntAsWord(j: int)
    requires 0 <= j < 32
    ensures (j as Word) < 32 && (j as Word) as int == j
  {
  }

  // ----- The registers of the two controllers -----

  /** Registers by bank: en[0..5] and ack[0..5] are int_en and int_clr of the board's groups of 32 lines,
      en[5] and ack[5] rd_inten and rd_intisr of the DMA controller, en[6] and ack[6] wr_inten and wr_intisr.
      Enable registers are given bit by bit. */
  datatype Regs = Regs(en: seq<seq<bool>>, ack: seq<Word>)

  const BANKS: int := 7
  const DMA_BASE: int := 168
  const LINES: int := 256

  predicate OnBoard(irq: int) {
    0 <= irq < 160
  }

  /** The initialisation gives the board's and the DMA controller's lines a chip and the level handler. */
  predicate HasChip(irq: int) {
    OnBoard(irq) || DMA_BASE <= irq < DMA_BASE + 16
  }

  ghost predicate Shaped(r: Regs) {
    |r.en| == |r.ack| == BANKS && forall b :: 0 <= b < BANKS ==> |r.en[b]| == 32
  }

  /** The bank of a line, and its bit there. */
  function Bank(irq: int): (b: int)
    requires HasChip(irq)
    ensures 0 <= b < BANKS
  {
    if OnBoard(irq) then irq / 32 else if irq < DMA_BASE + 8 then 5 else 6
  }

  function Place(irq: int): (k: int)
    requires HasChip(irq)
    ensures 0 <= k < 32
  {
    if OnBoard(irq) then irq % 32 else if irq < DMA_BASE + 8 then irq - DMA_BASE else irq - DMA_BASE - 8
  }

  function OneAt(irq: int): Word
    requires HasChip(irq)
  {
    IntAsWord(Place(irq));
    One(Place(irq) as Word)
  }

  function WithBit(r: Regs, irq: int, on: bool): Regs
    requires Shaped(r) && HasChip(irq)
  {
    r.(en := r.en[Bank(irq) := r.en[Bank(irq)][Place(irq) := on]])
  }

  /** The board's bit is set in int_clr; the DMA controller's status register is overwritten. */
  function Acked(r: Regs, irq: int): Regs
    requires Shaped(r) && HasChip(irq)
  {
    r.(ack := r.ack[Bank(irq) := if OnBoard(irq) then r.ack[Bank(irq)] | OneAt(irq) else OneAt(irq)])
  }

  /** The registers while a line is served: masked and acknowledged. */
  function Quieted(r: Regs, irq: int): Regs
    requires Shaped(r) && HasChip(irq)
  {
    Acked(WithBit(r, irq, false), irq)
  }

  /** What handle_level_irq leaves in the registers: masked, acknowledged, unmasked. */
  function Serviced(r: Regs, irq: int): Regs
    requires Shaped(r) && HasChip(irq)
  {
    WithBit(Quieted(r, irq), irq, true)
  }

  predicate Enabled(r: Regs, irq: int)
    requires Shaped(r) && HasChip(irq)
  {
    r.en[Bank(irq)][Place(irq)]
  }

  /** The bit that acknowledges line irq has been written. */
  predicate AckedIn(r: Regs, irq: int)
    requires Shaped(r) && HasChip(irq)
  {
    Bits(r.ack[Bank(irq)], 32)[Place(irq)]
  }

  lemma LinesApart(i: int, j: int)
    requires HasChip(i) && HasChip(j)
    ensures i == j <==> Bank(i) == Bank(j) && Place(i) == Place(j)
  {
  }

  lemma SetBitIsSet(x: Word, y: Word, w: Word, k: int, p: Word)
    requires w < 32 && w as int == k && p == One(w) && y == x | p
    ensures Bits(y, 32)[k]
  {
    BitsSet(x, y, w, k, p, 32);
  }

  lemma OrZero(x: Word)
    ensures 0 | x == x
  {
  }

  lemma AckIsWritten(x: Word, y: Word, w: Word, k: int, p: Word)
    requires w < 32 && w as int == k && p == One(w) && (y == x | p || y == p)
    ensures Bits(y, 32)[k]
  {
    if y == p {
      OrZero(p);
      SetBitIsSet(0, y, w, k, p);
    } else {
      SetBitIsSet(x, y, w, k, p);
    }
  }

  lemma {:induction false} ZeroBits(n: nat)
    ensures forall k :: 0 <= k < n ==> !Bits(0, n)[k]
    decreases n
  {
    if n > 0 {
      HalfOfZero();
      ZeroBits(n - 1);
    }
  }

  lemma OneBitOnly(k: int, p: Word)
    requires 0 <= k < 32 && IsOneAt(k, p)
    ensures forall j :: 0 <= j < 32 ==> (Bits(p, 32)[j] <==> j == k)
  {
    OrZero(p);
    SetAt(0, p, k, p);
    ZeroBits(32);
  }

  /** The word of a register after bit k has been or-ed in, or has overwritten it. */
  lemma AckedBits(x: Word, k: int, p: Word, y: Word, board: bool)
    requires 0 <= k < 32 && IsOneAt(k, p) && y == if board then x | p else p
    ensures forall j :: 0 <= j < 32 ==> (Bits(y, 32)[j] <==> j == k || (board && Bits(x, 32)[j]))
  {
    if board {
      OneBitMore(x, y, k, p);
    } else {
      OneBitOnly(k, y);
    }
  }

  lemma OneBitMore(x: Word, y: Word, k: int, p: Word)
    requires 0 <= k < 32 && IsOneAt(k, p) && y == x | p
    ensures forall j :: 0 <= j < 32 ==> (Bits(y, 32)[j] <==> j == k || Bits(x, 32)[j])
  {
    SetAt(x, y, k, p);
  }

  lemma AckedWord(r: Regs, irq: int, x: Word, p: Word, y: Word)
    requires Shaped(r) && HasChip(irq) && x == r.ack[Bank(irq)] && p == OneAt(irq) && y == if OnBoard(irq) then x | p else p
    ensures Acked(r, irq) == r.(ack := r.ack[Bank(irq) := y])
  {
  }

  lemma AckedSeen(r: Regs, irq: int, x: Word, y: Word, j: int, r': Regs)
    requires Shaped(r) && HasChip(irq) && HasChip(j) && x == r.ack[Bank(irq)] && r' == r.(ack := r.ack[Bank(irq) := y])
    requires forall i :: 0 <= i < 32 ==> (Bits(y, 32)[i] <==> i == Place(irq) || (OnBoard(irq) && Bits(x, 32)[i]))
    ensures Shaped(r') && (AckedIn(r', j) <==> j == irq || ((OnBoard(irq) || Bank(j) != Bank(irq)) && AckedIn(r, j)))
  {
    LinesApart(irq, j);
  }

  /** Acknowledging a board line adds its bit to those written before; acknowledging a DMA line leaves its bit alone
      in its register. The other registers keep theirs. */
  lemma AckMoves(r: Regs, irq: int, j: int)
    requires Shaped(r) && HasChip(irq) && HasChip(j)
    ensures Shaped(Acked(r, irq))
    ensures AckedIn(Acked(r, irq), j) <==> j == irq || ((OnBoard(irq) || Bank(j) != Bank(irq)) && AckedIn(r, j))
  {
    var x, p := r.ack[Bank(irq)], OneAt(irq);
    var y := if OnBoard(irq) then x | p else p;
    OneAtWord(irq, Place(irq), p);
    AckedWord(r, irq, x, p, y);
    AckedBits(x, Place(irq), p, y, OnBoard(irq));
    AckedSeen(r, irq, x, y, j, Acked(r, irq));
  }

  /** Clearing or setting the bit of one line, seen from another. */
  lemma OneLineMoves(r: Regs, irq: int, on: bool, j: int)
    requires Shaped(r) && HasChip(irq) && HasChip(j)
    ensures Enabled(WithBit(r, irq, on), j) == if j == irq then on else Enabled(r, j)
  {
    LinesApart(irq, j);
  }

  lemma AckKeepsEnables(r: Regs, irq: int)
    requires Shaped(r) && HasChip(irq)
    ensures Shaped(Acked(r, irq)) && Acked(r, irq).en == r.en
  {
  }

  /** Servicing a line masks it meanwhile and leaves it enabled; the enable bit of every other line is as it was
      throughout. */
  lemma ServiceTouchesOneLine(r: Regs, irq: int, j: int)
    requires Shaped(r) && HasChip(irq) && HasChip(j)
    ensures Shaped(Quieted(r, irq)) && (Enabled(Quieted(r, irq), j) <==> j != irq && Enabled(r, j))
    ensures Enabled(Serviced(r, irq), j) <==> j == irq || Enabled(r, j)
  {
    var r1 := WithBit(r, irq, false);
    var r2 := Acked(r1, irq);
    OneLineMoves(r, irq, false, j);
    AckKeepsEnables(r1, irq);
    OneLineMoves(r2, irq, true, j);
  }

  lemma AckValue(r: Regs, irq: int, x: Word, p: Word)
    requires Shaped(r) && HasChip(irq) && x == r.ack[Bank(irq)] && p == OneAt(irq)
    ensures Serviced(r, irq).ack == Quieted(r, irq).ack
    ensures Quieted(r, irq).ack[Bank(irq)] == if OnBoard(irq) then x | p else p
  {
  }

  /** And acknowledges that line, before its handlers are called. */
  lemma ServiceAcks(r: Regs, irq: int)
    requires Shaped(r) && HasChip(irq)
    ensures AckedIn(Quieted(r, irq), irq) && AckedIn(Serviced(r, irq), irq)
  {
    var x, p, k := r.ack[Bank(irq)], OneAt(irq), Place(irq);
    AckValue(r, irq, x, p);
    OneAtWord(irq, k, p);
    AckOn(x, k, p);
  }

  lemma OneAtWord(irq: int, k: int, p: Word)
    requires HasChip(irq) && k == Place(irq) && p == OneAt(irq)
    ensures IsOneAt(k, p)
  {
  }

  predicate IsOneAt(k: int, p: Word)
    requires 0 <= k < 32
  {
    IntAsWord(k);
    p == One(k as Word)
  }

  lemma AckOn(x: Word, k: int, p: Word)
    requires 0 <= k < 32 && IsOneAt(k, p)
    ensures Bits(x | p, 32)[k] && Bits(p, 32)[k]
  {
    IntAsWord(k);
    AckIsWritten(x, x | p, k as Word, k, p);
    AckIsWritten(x, p, k as Word, k, p);
  }

  // ----- Which line is served -----

  /** A line, or none. */
  const NONE: int := -1

  /** The DMA dispatcher: the lowest bit of the write status above the read status. */
  function DmaStatus(r: Regs): Word
    requires Shaped(r)
  {
    ((r.ack[6] & 0xff) << 8) | (r.ack[5] & 0xff)
  }

  function DmaLine(r: Regs): (line: int)
    requires Shaped(r)
    ensures line != NONE ==> HasChip(line) && !OnBoard(line)
  {
    var k := First(Bits(DmaStatus(r), 32));
    if k == 32 then NONE
    else
      StatusFirst(r.ack[5], r.ack[6], DmaStatus(r));
      DMA_BASE + k
  }

  /** The dispatcher of board group n, whose status is isr; line 42 passes on to the DMA controller. */
  function BoardLine(r: Regs, n: int, isr: Word): (line: int)
    requires Shaped(r) && 0 <= n < 5
    ensures line != NONE ==> HasChip(line)
  {
    var k := First(Bits(isr, 32));
    if k == 32 then NONE else if n == 1 && k == 10 then DmaLine(r) else 32 * n + k
  }

  /** The dispatchers' choices, in terms of what ffs returns. */
  lemma DmaPicks(r: Regs, status: Word, irq: int)
    requires Shaped(r) && status == DmaStatus(r)
    requires irq == if First(Bits(status, 32)) == 32 then 0 else First(Bits(status, 32)) + 1
    ensures DmaLine(r) == if irq == 0 then NONE else DMA_BASE + irq - 1
  {
  }

  lemma BoardPicks(r: Regs, n: int, isr: Word, irq: int)
    requires Shaped(r) && 0 <= n < 5
    requires irq == if First(Bits(isr, 32)) == 32 then 0 else First(Bits(isr, 32)) + 1
    ensures BoardLine(r, n, isr) == if irq == 0 then NONE else if n == 1 && irq == 11 then DmaLine(r) else n * 32 + irq - 1
  {
  }

  lemma SomeBit(x: Word)
    requires First(Bits(x, 32)) != 32
    ensures x != 0
  {
    if x == 0 {
      ZeroHasNone(32);
      assert false;
    }
  }

  lemma StatusBit(rd: Word, wr: Word, status: Word, k: Word)
    requires status == ((wr & 0xff) << 8) | (rd & 0xff) && k < 32 && status & One(k) != 0
    ensures k < 16
    ensures k < 8 ==> rd & One(k) != 0
    ensures k >= 8 ==> wr & One(k - 8) != 0
  {
  }

  /** The first bit of the status comes from the register that it names. */
  lemma StatusFirst(rd: Word, wr: Word, status: Word)
    requires status == ((wr & 0xff) << 8) | (rd & 0xff) && First(Bits(status, 32)) != 32
    ensures var k := First(Bits(status, 32)); k < 16 && (if k < 8 then Bits(rd, 32)[k] else Bits(wr, 32)[k - 8])
  {
    SomeBit(status);
    var k := FfsIsLowest(status);
    StatusBit(rd, wr, status, k);
    WordBounds(k);
    FirstOf(status, k);
    if k < 8 {
      BitIsTest(rd, k, 32);
    } else {
      BitIsTest(wr, k - 8, 32);
    }
  }

  lemma FirstOf(x: Word, k: Word)
    requires IsLowest(x, k)
    ensures First(Bits(x, 32)) == k as int
  {
    WordAsInt(k);
    LowestIsFirst(x, k, 32);
  }

  /** The line picked is pending: its own bit is set in the register that it is served and acknowledged in. */
  lemma DmaLineIsPending(r: Regs)
    requires Shaped(r) && DmaLine(r) != NONE
    ensures HasChip(DmaLine(r)) && !OnBoard(DmaLine(r)) && AckedIn(r, DmaLine(r))
  {
    var status := DmaStatus(r);
    StatusFirst(r.ack[5], r.ack[6], status);
    DmaPicks(r, status, First(Bits(status, 32)) + 1);
    DmaWritten(r, DMA_BASE + First(Bits(status, 32)));
  }

  lemma DmaWritten(r: Regs, line: int)
    requires Shaped(r) && DMA_BASE <= line < DMA_BASE + 16
    requires if line < DMA_BASE + 8 then Bits(r.ack[5], 32)[line - DMA_BASE] else Bits(r.ack[6], 32)[line - DMA_BASE - 8]
    ensures AckedIn(r, line)
  {
  }

  /** So is a line of the board: its bit is set in the status of its group. */
  lemma BoardLineIsPending(r: Regs, n: int, isr: Word)
    requires Shaped(r) && 0 <= n < 5 && BoardLine(r, n, isr) != NONE
    ensures var line := BoardLine(r, n, isr);
            if n == 1 && First(Bits(isr, 32)) == 10 then !OnBoard(line) && AckedIn(r, line)
            else OnBoard(line) && Bank(line) == n && Bits(isr, 32)[Place(line)]
  {
    if n == 1 && First(Bits(isr, 32)) == 10 {
      DmaLineIsPending(r);
    }
  }

  // ----- What is picked is the lowest -----

  lemma FirstIsNone(x: Word)
    ensures First(Bits(x, 32)) == 32 <==> x == 0
  {
    if x == 0 {
      ZeroHasNone(32);
    } else {
      var k := FfsIsLowest(x);
      FirstOf(x, k);
      WordAsInt(k);
    }
  }

  /** The board dispatcher picks nothing exactly when the status is 0, and else the line of its lowest bit, bit 10 of
      group 1 standing for the DMA controller. */
  lemma BoardPickIsLowest(r: Regs, n: int, isr: Word) returns (k: Word)
    requires Shaped(r) && 0 <= n < 5
    ensures isr == 0 ==> BoardLine(r, n, isr) == NONE
    ensures isr != 0 ==> IsLowest(isr, k) && BoardLine(r, n, isr) == if n == 1 && k == 10 then DmaLine(r) else 32 * n + k as int
  {
    k := 0;
    FirstIsNone(isr);
    if isr != 0 {
      k := FfsIsLowest(isr);
      FirstOf(isr, k);
      TenAsInt(k);
      BoardPicks(r, n, isr, First(Bits(isr, 32)) + 1);
    }
  }

  lemma TenAsInt(k: Word)
    requires k < 32
    ensures k as int < 32 && (k == 10 <==> k as int == 10)
  {
  }

  /** The lowest bit of the status is the lowest read channel pending, or, when there is none, the lowest write
      channel. */
  lemma StatusLowest(rd: Word, wr: Word, status: Word, k: Word)
    requires status == ((wr & 0xff) << 8) | (rd & 0xff) && IsLowest(status, k)
    ensures rd & 0xff != 0 ==> IsLowest(rd & 0xff, k)
    ensures rd & 0xff == 0 ==> k >= 8 && IsLowest(wr & 0xff, k - 8)
  {
  }

  lemma StatusZero(rd: Word, wr: Word, status: Word)
    requires status == ((wr & 0xff) << 8) | (rd & 0xff)
    ensures status == 0 <==> rd & 0xff == 0 && wr & 0xff == 0
  {
  }

  /** The line is that of the lowest read channel pending, k, or else of the lowest write channel, or else none. */
  predicate PickIs(rd: Word, wr: Word, line: int, k: Word) {
    if rd & 0xff != 0 then IsLowest(rd & 0xff, k) && line == 168 + k as int
    else if wr & 0xff != 0 then IsLowest(wr & 0xff, k) && line == 176 + k as int
    else line == NONE
  }

  /** The first bit of a status, by the channels, and the line that it stands for. */
  lemma StatusPick(rd: Word, wr: Word, status: Word, first: int, line: int) returns (k: Word)
    requires status == ((wr & 0xff) << 8) | (rd & 0xff) && first == First(Bits(status, 32))
    requires line == if first == 32 then NONE else 168 + first
    ensures PickIs(rd, wr, line, k)
  {
    k := 0;
    StatusZero(rd, wr, status);
    FirstIsNone(status);
    if status != 0 {
      var j := FfsIsLowest(status);
      FirstOf(status, j);
      StatusLowest(rd, wr, status, j);
      k := if rd & 0xff != 0 then j else j - 8;
      WordAsInt(j);
      LessEight(j);
    }
  }

  lemma DmaLineIs(r: Regs, status: Word, first: int)
    requires Shaped(r) && status == DmaStatus(r) && first == First(Bits(status, 32))
    ensures DmaLine(r) == if first == 32 then NONE else 168 + first
  {
  }

  /** The DMA dispatcher picks the lowest read channel that is pending, else the lowest write channel, else nothing. */
  lemma DmaPickIsLowest(r: Regs) returns (k: Word)
    requires Shaped(r)
    ensures PickIs(r.ack[5], r.ack[6], DmaLine(r), k)
  {
    k := DmaPick(r, DmaStatus(r), First(Bits(DmaStatus(r), 32)), DmaLine(r));
  }

  lemma DmaPick(r: Regs, status: Word, first: int, line: int) returns (k: Word)
    requires Shaped(r) && status == DmaStatus(r) && first == First(Bits(status, 32)) && line == DmaLine(r)
    ensures PickIs(r.ack[5], r.ack[6], line, k)
  {
    DmaLineIs(r, status, first);
    k := StatusPick(r.ack[5], r.ack[6], status, first, line);
  }

  lemma LessEight(j: Word)
    requires j < 32
    ensures j >= 8 ==> (j - 8) as int == j as int - 8
  {
  }

  lemma WordBounds(k: Word)
    requires k < 16
    ensures k as int < 16 && (k < 8 <==> k as int < 8) && (k >= 8 ==> (k - 8) as int == k as int - 8)
  {
  }

  // ----- Lines, their actions, and what happens to them -----

  /** A handler and the dev_id that it is called with. */
  type Call = (int, int)

  const NULL: int := 0

  /** The registers, the actions registered for each line in the order of the list, the calls made so far, and
      whether an event has been handled through a null list, where the program ends. */
  datatype State = State(regs: Regs, calls: seq<seq<Call>>, log: seq<Call>, halted: bool)

  ghost predicate Proper(s: State) {
    Shaped(s.regs) && |s.calls| == LINES
  }

  /** request_irq: the action goes to the end of the line's list; the first one enables the line. */
  function Requested(s: State, irq: int, call: Call): State
    requires Proper(s) && HasChip(irq)
  {
    s.(calls := s.calls[irq := s.calls[irq] + [call]],
       regs := if s.calls[irq] == [] then WithBit(s.regs, irq, true) else s.regs)
  }

  /** handle_level_irq: every action of the line is called, in order; a line without any stays masked. */
  function LineServed(s: State, irq: int): State
    requires Proper(s) && HasChip(irq)
  {
    s.(regs := if s.calls[irq] == [] then Quieted(s.regs, irq) else Serviced(s.regs, irq),
       log := s.log + s.calls[irq],
       halted := s.calls[irq] == [])
  }

  /** The dispatchers serve the line picked, if any. */
  function Dispatched(s: State, line: int): State
    requires Proper(s) && (line == NONE || HasChip(line))
  {
    if line == NONE then s else LineServed(s, line)
  }

  lemma ServedIs(s: State, irq: int, s': State)
    requires Proper(s) && HasChip(irq) && s'.calls == s.calls && s'.log == s.log + s.calls[irq]
    requires s'.regs == if s.calls[irq] == [] then Quieted(s.regs, irq) else Serviced(s.regs, irq)
    requires s'.halted <==> s.calls[irq] == []
    ensures s' == LineServed(s, irq)
  {
  }

  class Action {
    const handler: int
    const devId: int
    var next: Action?

    constructor (handler: int, devId: int)
      ensures this.handler == handler && this.devId == devId && next == null
    {
      this.handler, this.devId, next := handler, devId, null;
    }
  }

  function CallsOf(list: seq<Action>): (c: seq<Call>)
    ensures |c| == |list|
  {
    seq(|list|, k requires 0 <= k < |list| => (list[k].handler, list[k].devId))
  }

  function AllCalls(lists: seq<seq<Action>>): (c: seq<seq<Call>>)
    ensures |c| == |lists|
  {
    seq(|lists|, i requires 0 <= i < |lists| => CallsOf(lists[i]))
  }

  function AllBits(words: seq<Word>): (b: seq<seq<bool>>)
    ensures |b| == |words|
  {
    seq(|words|, i requires 0 <= i < |words| => Bits(words[i], 32))
  }

  lemma AllBitsUpdated(words: seq<Word>, b: nat, value: Word)
    requires b < |words|
    ensures AllBits(words[b := value]) == AllBits(words)[b := Bits(value, 32)]
  {
  }

  lemma AllCallsUpdated(lists: seq<seq<Action>>, irq: nat, action: Action)
    requires irq < |lists|
    ensures AllCalls(lists[irq := lists[irq] + [action]])
            == AllCalls(lists)[irq := CallsOf(lists[irq]) + [(action.handler, action.devId)]]
  {
    CallsGrow(lists[irq], action);
  }

  lemma CallsGrow(list: seq<Action>, a: Action)
    ensures CallsOf(list + [a]) == CallsOf(list) + [(a.handler, a.devId)]
  {
  }

  method FindFirst(x: Word) returns (irq: int)
    ensures irq == if First(Bits(x, 32)) == 32 then 0 else First(Bits(x, 32)) + 1
  {
    irq := Ffs(x) as int;
    FfsIsFirst(x);
  }

  lemma ClearAt(x: Word, y: Word, k: int, p: Word)
    requires 0 <= k < 32 && IsOneAt(k, p) && y == x & !p
    ensures Bits(y, 32) == Bits(x, 32)[k := false]
  {
    IntAsWord(k);
    BitsCleared(x, y, k as Word, k, !p, 32);
  }

  lemma SetAt(x: Word, y: Word, k: int, p: Word)
    requires 0 <= k < 32 && IsOneAt(k, p) && y == x | p
    ensures Bits(y, 32) == Bits(x, 32)[k := true]
  {
    IntAsWord(k);
    BitsSet(x, y, k as Word, k, p, 32);
  }

  /** word &= ~(1 << k) for the place k of a line, and word |= 1 << k. */
  method Cleared(word: Word, irq: int) returns (value: Word)
    requires HasChip(irq)
    ensures Bits(value, 32) == Bits(word, 32)[Place(irq) := false]
  {
    var p := OneAt(irq);
    value := word & !p;
    OneAtWord(irq, Place(irq), p);
    ClearAt(word, value, Place(irq), p);
  }

  method WithOne(word: Word, irq: int) returns (value: Word)
    requires HasChip(irq)
    ensures Bits(value, 32) == Bits(word, 32)[Place(irq) := true]
  {
    var p := OneAt(irq);
    value := word | p;
    OneAtWord(irq, Place(irq), p);
    SetAt(word, value, Place(irq), p);
  }

  /** Following next from `first` gives list, once round nothing, and ends. */
  ghost predicate Chained(first: Action?, list: seq<Action>)
    reads list
  {
    && first == (if list == [] then null else list[0])
    && (forall k {:trigger list[k]} :: 0 <= k < |list| ==> list[k].next == if k + 1 < |list| then list[k + 1] else null)
  }

  /** Each list is the chain from its head, through nodes only. */
  ghost predicate AllChained(heads: seq<Action?>, lists: seq<seq<Action>>, nodes: set<Action>)
    requires |heads| == |lists|
    reads nodes
  {
    forall i {:trigger lists[i]} :: 0 <= i < |lists| ==>
      (forall k {:trigger lists[i][k]} :: 0 <= k < |lists[i]| ==> lists[i][k] in nodes) && Chained(heads[i], lists[i])
  }

  /** Every action on a list is a node, and `places` says where it is. */
  ghost predicate AllPlaced(lists: seq<seq<Action>>, nodes: set<Action>, places: map<Action, (int, int)>) {
    forall i, k {:trigger lists[i][k]} :: 0 <= i < |lists| && 0 <= k < |lists[i]| ==>
      lists[i][k] in nodes && lists[i][k] in places && places[lists[i][k]] == (i, k)
  }

  lemma PlacedGrows(lists: seq<seq<Action>>, nodes: set<Action>, places: map<Action, (int, int)>, irq: nat, action: Action)
    requires AllPlaced(lists, nodes, places) && irq < |lists| && action !in nodes
    ensures AllPlaced(lists[irq := lists[irq] + [action]], nodes + {action}, places[action := (irq, |lists[irq]|)])
  {
    var lists' := lists[irq := lists[irq] + [action]];
    forall i, k | 0 <= i < |lists'| && 0 <= k < |lists'[i]|
      ensures lists'[i][k] == if i == irq && k == |lists[irq]| then action else lists[i][k]
    {
    }
  }

  /** The do-while loop of setup_irq. */
  method WalkToEnd(first: Action, ghost list: seq<Action>) returns (last: Action)
    requires Chained(first, list) && list != []
    ensures last == list[|list| - 1]
  {
    last := first;
    ghost var k := 0;
    while last.next != null
      invariant 0 <= k < |list| && last == list[k]
      decreases |list| - k
    {
      last := last.next;
      k := k + 1;
    }
  }

  /** irq_desc and the controllers' registers. */
  class Interrupts {
    const head: array<Action?>
    const en: array<Word>
    const ack: array<Word>
    var log: seq<Call>
    var halted: bool

    ghost var lists: seq<seq<Action>>
    ghost var nodes: set<Action>
    ghost var places: map<Action, (int, int)>

    /** Each list is a chain without a cycle, and no action is on two lists or twice on one. */
    ghost predicate Valid()
      reads this`lists, this`nodes, this`places, head, nodes
    {
      && head.Length == |lists| == LINES && en.Length == ack.Length == BANKS && en != ack
      && AllPlaced(lists, nodes, places)
      && AllChained(head[..], lists, nodes)
    }

    ghost function Registers(): Regs
      reads en, ack
      requires en.Length == ack.Length == BANKS
    {
      Regs(AllBits(en[..]), ack[..])
    }

    ghost function View(): State
      reads this, head, nodes, en, ack
      requires Valid()
    {
      State(Registers(), AllCalls(lists), log, halted)
    }

    constructor ()
      ensures Valid() && fresh(head) && fresh(en) && fresh(ack) && nodes == {}
      ensures View().calls == seq(LINES, _ => []) && View().log == [] && !View().halted
    {
      head := new Action?[LINES](_ => null);
      en := new Word[BANKS](_ => 0);
      ack := new Word[BANKS](_ => 0);
      log, halted, lists, nodes, places := [], false, seq(LINES, _ => []), {}, map[];
    }

    method Mask(irq: int)
      requires en.Length == ack.Length == BANKS && en != ack && HasChip(irq)
      modifies en
      ensures Registers() == WithBit(old(Registers()), irq, false)
    {
      var value := Cleared(en[Bank(irq)], irq);
      WriteEnable(irq, value, false);
    }

    method Unmask(irq: int)
      requires en.Length == ack.Length == BANKS && en != ack && HasChip(irq)
      modifies en
      ensures Registers() == WithBit(old(Registers()), irq, true)
    {
      var value := WithOne(en[Bank(irq)], irq);
      WriteEnable(irq, value, true);
    }

    method WriteEnable(irq: int, value: Word, ghost on: bool)
      requires en.Length == ack.Length == BANKS && en != ack && HasChip(irq)
      requires Bits(value, 32) == Bits(en[Bank(irq)], 32)[Place(irq) := on]
      modifies en
      ensures Registers() == WithBit(old(Registers()), irq, on)
    {
      AllBitsUpdated(en[..], Bank(irq), value);
      ghost var words := en[..];
      en[Bank(irq)] := value;
      assert en[..] == words[Bank(irq) := value];
    }

    method Acknowledge(irq: int)
      requires en.Length == ack.Length == BANKS && en != ack && HasChip(irq)
      modifies ack
      ensures Registers() == Acked(old(Registers()), irq)
    {
      var b := Bank(irq);
      var value := if OnBoard(irq) then ack[b] | OneAt(irq) else OneAt(irq);
      ack[b] := value;
    }

    /** The list part of setup_irq: walk to the end of the line's list and hang the action there. */
    method Append(irq: int, action: Action) returns (shared: bool)
      requires Valid() && 0 <= irq < LINES && action !in nodes && action.next == null
      modifies this`lists, this`nodes, this`places, head, nodes
      ensures Valid() && nodes == old(nodes) + {action}
      ensures lists == old(lists)[irq := old(lists)[irq] + [action]]
      ensures shared <==> old(lists)[irq] != []
    {
      assert Chained(head[irq], lists[irq]);
      shared := head[irq] != null;
      if shared {
        HangOn(irq, action);
      } else {
        HangFirst(irq, action);
      }
    }

    method HangOn(irq: int, action: Action)
      requires Valid() && 0 <= irq < LINES && action !in nodes && action.next == null && head[irq] != null
      modifies this`lists, this`nodes, this`places, nodes
      ensures Valid() && nodes == old(nodes) + {action}
      ensures lists == old(lists)[irq := old(lists)[irq] + [action]]
    {
      ghost var list := lists[irq];
      assert Chained(head[irq], list);
      var last := WalkToEnd(head[irq], list);
      PlacedGrows(lists, nodes, places, irq, action);
      Link(irq, last, action);
      Record(irq, action);
    }

    /** The bookkeeping for an action that has been put on its list. */
    ghost method Record(irq: int, action: Action)
      requires head.Length == |lists| == LINES && en.Length == ack.Length == BANKS && en != ack && 0 <= irq < LINES
      requires var list := lists[irq];
               && AllPlaced(lists[irq := list + [action]], nodes + {action}, places[action := (irq, |list|)])
               && AllChained(head[..], lists[irq := list + [action]], nodes + {action})
      modifies this`lists, this`nodes, this`places
      ensures Valid() && nodes == old(nodes) + {action}
      ensures lists == old(lists)[irq := old(lists)[irq] + [action]]
    {
      var list := lists[irq];
      lists, nodes, places := lists[irq := list + [action]], nodes + {action}, places[action := (irq, |list|)];
    }

    /** The pointer write: it lengthens the chain of this line and leaves the others alone. */
    method Link(ghost irq: int, last: Action, action: Action)
      requires Valid() && 0 <= irq < LINES && action !in nodes && action.next == null
      requires lists[irq] != [] && last == lists[irq][|lists[irq]| - 1]
      modifies last`next
      ensures AllChained(head[..], lists[irq := lists[irq] + [action]], nodes + {action})
    {
      assert places[last] == (irq, |lists[irq]| - 1);
      ghost var lists' := lists[irq := lists[irq] + [action]];
      last.next := action;
      forall i | 0 <= i < LINES
        ensures Chained(head[..][i], lists'[i])
      {
        assert old(Chained(head[..][i], lists[i]));
        assert i != irq ==> last !in lists[i] && lists'[i] == lists[i];
      }
    }

    method HangFirst(irq: int, action: Action)
      requires Valid() && 0 <= irq < LINES && action !in nodes && action.next == null && head[irq] == null
      modifies this`lists, this`nodes, this`places, head
      ensures Valid() && nodes == old(nodes) + {action}
      ensures lists == old(lists)[irq := old(lists)[irq] + [action]]
    {
      assert Chained(head[..][irq], lists[irq]);
      PlacedGrows(lists, nodes, places, irq, action);
      head[irq] := action;
      forall i | 0 <= i < LINES
        ensures Chained(head[..][i], lists[irq := lists[irq] + [action]][i])
      {
        assert i != irq ==> old(Chained(head[..][i], lists[i]));
      }
      Record(irq, action);
    }

    method SetupIrq(irq: int, action: Action)
      requires Valid() && HasChip(irq) && action !in nodes && action.next == null
      modifies this`lists, this`nodes, this`places, head, nodes, en
      ensures Valid() && nodes == old(nodes) + {action}
      ensures View() == Requested(old(View()), irq, (action.handler, action.devId))
    {
      AllCallsUpdated(lists, irq, action);
      var shared := Append(irq, action);
      if !shared {
        Unmask(irq);
      }
    }

    /** `room` says whether malloc() finds room for the action; false is returned for the source's error codes. */
    method RequestIrq(irq: int, handler: int, devId: int, room: bool) returns (ok: bool)
      requires Valid() && HasChip(irq)
      modifies this`lists, this`nodes, this`places, head, nodes, en
      ensures Valid() && fresh(nodes - old(nodes))
      ensures ok <==> handler != NULL && room
      ensures View() == if ok then Requested(old(View()), irq, (handler, devId)) else old(View())
    {
      if handler == NULL || !room {
        return false;
      }
      var action := new Action(handler, devId);
      SetupIrq(irq, action);
      ok := true;
    }

    /** Call the actions of a list one after the other; the source's loop tests for the end only after a call, so
        with an empty list the first call goes through a null pointer. */
    method HandleEvent(first: Action?, ghost list: seq<Action>)
      requires Chained(first, list) && !halted
      modifies this`log, this`halted
      ensures log == old(log) + CallsOf(list)
      ensures halted <==> list == []
    {
      if first == null {
        halted := true;
        return;
      }
      ghost var calls := CallsOf(list);
      ghost var k := 1;
      log := log + [(first.handler, first.devId)];
      var action := first.next;
      while action != null
        invariant !halted && 1 <= k <= |list|
        invariant action == if k < |list| then list[k] else null
        invariant log == old(log) + calls[..k]
        decreases |list| - k
      {
        log := log + [(action.handler, action.devId)];
        action := action.next;
        k := k + 1;
      }
      assert calls[..k] == calls;
    }

    method HandleLevelIrq(irq: int)
      requires Valid() && HasChip(irq) && !halted
      modifies this`log, this`halted, en, ack
      ensures Valid() && View() == LineServed(old(View()), irq)
    {
      assert Chained(head[irq], lists[irq]);
      ghost var s := View();
      HandleLevel(irq, head[irq], lists[irq]);
      ServedIs(s, irq, View());
    }

    /** handle_level_irq, given the line's list. */
    method HandleLevel(irq: int, first: Action?, ghost list: seq<Action>)
      requires en.Length == ack.Length == BANKS && en != ack && HasChip(irq)
      requires Chained(first, list) && !halted
      modifies this`log, this`halted, en, ack
      ensures log == old(log) + CallsOf(list) && (halted <==> list == [])
      ensures Registers() == if list == [] then Quieted(old(Registers()), irq) else Serviced(old(Registers()), irq)
    {
      Mask(irq);
      Acknowledge(irq);
      HandleEvent(first, list);
      if !halted {
        Unmask(irq);
      }
    }

    /** The first pending bit of the DMA controller, counted from 1. */
    method DmaFirst() returns (irq: int)
      requires en.Length == ack.Length == BANKS
      ensures var line := DmaLine(Registers()); irq == if line == NONE then 0 else line - DMA_BASE + 1
    {
      var status := ((ack[6] & 0xff) << 8) | (ack[5] & 0xff);
      irq := FindFirst(status);
      DmaPicks(Registers(), status, irq);
    }

    method DmaDispatch()
      requires Valid() && !halted
      modifies this`log, this`halted, en, ack
      ensures Valid()
      ensures View() == Dispatched(old(View()), DmaLine(old(View()).regs))
    {
      var irq := DmaFirst();
      DmaServe(irq, DmaLine(Registers()));
    }

    /** The choice of ls1gp_board_dma_irqdispatch, irq being what ffs returned. */
    method DmaServe(irq: nat, ghost line: int)
      requires Valid() && !halted && line == (if irq == 0 then NONE else DMA_BASE + irq - 1) && (line == NONE || HasChip(line))
      modifies this`log, this`halted, en, ack
      ensures Valid() && View() == Dispatched(old(View()), line)
    {
      if irq == 0 {
        return;
      }
      HandleLevelIrq(DMA_BASE + irq - 1);
    }

    /** The choice of ls1b_board_hw_irqdispatch, irq being what ffs returned. */
    method BoardServe(n: int, irq: nat, ghost line: int)
      requires Valid() && 0 <= n < 5 && !halted && (line == NONE || HasChip(line))
      requires line == if irq == 0 then NONE else if n == 1 && irq == 11 then DmaLine(Registers()) else n * 32 + irq - 1
      modifies this`log, this`halted, en, ack
      ensures Valid() && View() == Dispatched(old(View()), line)
    {
      if irq == 0 {
        return;
      }
      if n == 1 && irq == 11 {
        DmaDispatch();
      } else {
        HandleLevelIrq(n * 32 + irq - 1);
      }
    }

    method BoardDispatch(n: int, isr: Word)
      requires Valid() && 0 <= n < 5 && !halted
      modifies this`log, this`halted, en, ack
      ensures Valid()
      ensures View() == Dispatched(old(View()), BoardLine(old(View()).regs, n, isr))
    {
      var irq := FindFirst(isr);
      BoardPicks(View().regs, n, isr, irq);
      BoardServe(n, irq, BoardLine(View().regs, n, isr));
    }
  }

  // ----- Any sequence of registrations and interrupts -----

  /** A request_irq; an interrupt of a board group with its status; the DMA controller setting its status. */
  datatype Op = Request(irq: int, handler: int, devId: int) | Interrupt(group: int, isr: Word) | DmaRaises(rd: Word, wr: Word)

  /** The program still runs, registers only lines with a chip, and there are five groups. */
  predicate Allowed(s: State, op: Op) {
    && !s.halted
    && match op
       case Request(irq, _, _) => HasChip(irq)
       case Interrupt(group, _) => 0 <= group < 5
       case DmaRaises(_, _) => true
  }

  function Step(s: State, op: Op): State
    requires Proper(s) && Allowed(s, op)
  {
    match op
    case Request(irq, handler, devId) => if handler == NULL then s else Requested(s, irq, (handler, devId))
    case Interrupt(group, isr) => Dispatched(s, BoardLine(s.regs, group, isr))
    case DmaRaises(rd, wr) => s.(regs := s.regs.(ack := s.regs.ack[5 := rd][6 := wr]))
  }

  ghost predicate StepAt(ss: seq<State>, ops: seq<Op>, i: nat) {
    && i < |ops| && i + 1 < |ss|
    && Proper(ss[i]) && Allowed(ss[i], ops[i]) && ss[i + 1] == Step(ss[i], ops[i])
  }

  /** ss[0], ss[1], … are the states before, between and after ops, from no handlers and no calls. */
  ghost predicate Run(ss: seq<State>, ops: seq<Op>) {
    && |ss| == |ops| + 1 && Proper(ss[0]) && ss[0].log == [] && !ss[0].halted
    && (forall irq :: 0 <= irq < LINES ==> ss[0].calls[irq] == [])
    && (forall i :: 0 <= i < |ops| ==> StepAt(ss, ops, i))
  }

  /** The handlers that ops register for line irq, in order. */
  function Registered(ops: seq<Op>, irq: int): seq<Call>
    decreases |ops|
  {
    if ops == [] then []
    else
      var last := ops[|ops| - 1];
      Registered(ops[..|ops| - 1], irq)
      + if last.Request? && last.irq == irq && last.handler != NULL then [(last.handler, last.devId)] else []
  }

  /** The line that op picks, if it is an interrupt. */
  function Picked(s: State, op: Op): (line: int)
    requires Proper(s) && Allowed(s, op)
    ensures line == NONE || HasChip(line)
  {
    if op.Interrupt? then BoardLine(s.regs, op.group, op.isr) else NONE
  }

  /** What an operation calls: the handlers registered by those before it for the line it picks. */
  function CalledFor(line: int, before: seq<Op>): seq<Call> {
    if line == NONE then [] else Registered(before, line)
  }

  ghost function Called(ss: seq<State>, ops: seq<Op>, i: nat): seq<Call>
    requires Run(ss, ops) && i <= |ops|
  {
    if i == 0 then []
    else
      RunIsProper(ss, ops, i - 1);
      Called(ss, ops, i - 1) + CalledFor(Picked(ss[i - 1], ops[i - 1]), ops[..i - 1])
  }

  lemma {:induction false} RunIsProper(ss: seq<State>, ops: seq<Op>, i: nat)
    requires Run(ss, ops) && i <= |ops|
    ensures Proper(ss[i]) && (i < |ops| ==> Allowed(ss[i], ops[i]))
  {
    if i > 0 {
      RunIsProper(ss, ops, i - 1);
      assert StepAt(ss, ops, i - 1);
      StepIsProper(ss[i - 1], ops[i - 1]);
    }
    if i < |ops| {
      assert StepAt(ss, ops, i);
    }
  }

  lemma ServedIsProper(s: State, line: int)
    requires Proper(s) && (line == NONE || HasChip(line))
    ensures Proper(Dispatched(s, line)) && Dispatched(s, line).calls == s.calls
    ensures Dispatched(s, line).log == s.log + if line == NONE then [] else s.calls[line]
    ensures Dispatched(s, line).halted <==> if line == NONE then s.halted else s.calls[line] == []
  {
  }

  lemma StepIsProper(s: State, op: Op)
    requires Proper(s) && Allowed(s, op)
    ensures Proper(Step(s, op))
  {
    if op.Interrupt? {
      StepDispatches(s, op, Picked(s, op));
      ServedIsProper(s, Picked(s, op));
    }
  }

  lemma StepDispatches(s: State, op: Op, line: int)
    requires Proper(s) && Allowed(s, op) && op.Interrupt? && line == Picked(s, op)
    ensures Step(s, op) == Dispatched(s, line)
  {
  }

  /** One step: the lists grow only by what is registered, and a line becomes enabled only with a handler. The
      program ends exactly when an interrupt picks a line without one, and that line is left masked. */
  lemma StepRegisters(s: State, op: Op, irq: int)
    requires Proper(s) && Allowed(s, op) && 0 <= irq < LINES
    ensures |Step(s, op).calls| == LINES
    ensures Step(s, op).calls[irq]
            == s.calls[irq] + if op.Request? && op.irq == irq && op.handler != NULL then [(op.handler, op.devId)] else []
  {
  }

  lemma StepEnables(s: State, op: Op, j: int)
    requires Proper(s) && Allowed(s, op) && HasChip(j)
    ensures Proper(Step(s, op))
    ensures Enabled(Step(s, op).regs, j) ==> Enabled(s.regs, j) || Step(s, op).calls[j] != []
    ensures s.calls[j] == [] && Step(s, op).calls[j] != [] ==> Enabled(Step(s, op).regs, j)
    ensures Enabled(s.regs, j) && !Enabled(Step(s, op).regs, j) ==> Step(s, op).halted && s.calls[j] == []
  {
    StepIsProper(s, op);
    match op
    case Request(irq, _, _) => OneLineMoves(s.regs, irq, true, j);
    case Interrupt(_, _) =>
      StepDispatches(s, op, Picked(s, op));
      DispatchEnables(s, Picked(s, op), j);
    case DmaRaises(_, _) =>
  }

  lemma DispatchEnables(s: State, line: int, j: int)
    requires Proper(s) && (line == NONE || HasChip(line)) && HasChip(j)
    ensures var s' := Dispatched(s, line);
            && Proper(s') && s'.calls == s.calls
            && (Enabled(s'.regs, j) ==> Enabled(s.regs, j) || s.calls[j] != [])
            && (Enabled(s.regs, j) && !Enabled(s'.regs, j) ==> s'.halted && s.calls[j] == [])
  {
    ServedIsProper(s, line);
    if line != NONE {
      ServiceTouchesOneLine(s.regs, line, j);
    }
  }

  /** In every run: a line's list holds exactly the handlers registered for it, in order; */
  lemma {:induction false} ListsAreInOrder(ss: seq<State>, ops: seq<Op>, i: nat, irq: int)
    requires Run(ss, ops) && i <= |ops| && 0 <= irq < LINES
    ensures Proper(ss[i]) && ss[i].calls[irq] == Registered(ops[..i], irq)
  {
    RunIsProper(ss, ops, i);
    if i > 0 {
      ListsAreInOrder(ss, ops, i - 1, irq);
      assert StepAt(ss, ops, i - 1);
      StepRegisters(ss[i - 1], ops[i - 1], irq);
      assert ops[..i][..i - 1] == ops[..i - 1];
    }
  }

  lemma StepCalls(s: State, op: Op, line: int)
    requires Proper(s) && Allowed(s, op) && line == Picked(s, op)
    ensures Step(s, op).log == s.log + if line == NONE then [] else s.calls[line]
    ensures Step(s, op).halted <==> line != NONE && s.calls[line] == []
  {
    if op.Interrupt? {
      StepDispatches(s, op, line);
      ServedIsProper(s, line);
    }
  }

  lemma PickedIsCalled(ss: seq<State>, ops: seq<Op>, i: nat)
    requires Run(ss, ops) && i < |ops|
    ensures Proper(ss[i]) && Allowed(ss[i], ops[i])
    ensures var line := Picked(ss[i], ops[i]);
            && ss[i + 1].log == ss[i].log + CalledFor(line, ops[..i])
            && (ss[i + 1].halted <==> line != NONE && Registered(ops[..i], line) == [])
  {
    assert StepAt(ss, ops, i);
    var line := Picked(ss[i], ops[i]);
    StepCalls(ss[i], ops[i], line);
    if line != NONE {
      ListsAreInOrder(ss, ops, i, line);
    }
  }

  /** the calls made are, interrupt by interrupt, the handlers registered till then for the line picked, each
      once and in that order; */
  lemma {:induction false} InterruptsCallEachOnce(ss: seq<State>, ops: seq<Op>, i: nat)
    requires Run(ss, ops) && i <= |ops|
    ensures ss[i].log == Called(ss, ops, i)
  {
    if i > 0 {
      InterruptsCallEachOnce(ss, ops, i - 1);
      PickedIsCalled(ss, ops, i - 1);
    }
  }

  /** the program ends through a null list exactly when an interrupt picks a line that nothing was registered for; */
  lemma HaltsExactly(ss: seq<State>, ops: seq<Op>, i: nat)
    requires Run(ss, ops) && i <= |ops|
    ensures i > 0 ==> Proper(ss[i - 1]) && Allowed(ss[i - 1], ops[i - 1])
    ensures ss[i].halted
            <==> i > 0 && var line := Picked(ss[i - 1], ops[i - 1]); line != NONE && Registered(ops[..i - 1], line) == []
  {
    if i > 0 {
      PickedIsCalled(ss, ops, i - 1);
    }
  }

  /** and until the program ends, a line is enabled exactly if it was at the start or has a handler. */
  lemma {:induction false} EnabledMeansHandled(ss: seq<State>, ops: seq<Op>, i: nat, j: int)
    requires Run(ss, ops) && i <= |ops| && HasChip(j)
    ensures Proper(ss[i]) && (ss[i].calls[j] != [] ==> Enabled(ss[i].regs, j))
    ensures Enabled(ss[i].regs, j) ==> Enabled(ss[0].regs, j) || ss[i].calls[j] != []
    ensures Enabled(ss[0].regs, j) && !ss[i].halted ==> Enabled(ss[i].regs, j)
  {
    RunIsProper(ss, ops, i);
    if i > 0 {
      EnabledMeansHandled(ss, ops, i - 1, j);
      assert StepAt(ss, ops, i - 1);
      StepEnables(ss[i - 1], ops[i - 1], j);
      StepRegisters(ss[i - 1], ops[i - 1], j);
    }
  }

  /** No line was enabled at the start, and the first i operations interrupt for enabled lines only. */
  ghost predicate EnabledOnly(ss: seq<State>, ops: seq<Op>, i: nat)
    requires Run(ss, ops) && i <= |ops|
  {
    && (forall j :: HasChip(j) ==> !Enabled(ss[0].regs, j))
    && (forall k :: 0 <= k < i && Proper(ss[k]) && Allowed(ss[k], ops[k]) && Picked(ss[k], ops[k]) != NONE ==>
         Enabled(ss[k].regs, Picked(ss[k], ops[k])))
  }

  lemma PickedIsHandled(ss: seq<State>, ops: seq<Op>, k: nat, line: int)
    requires Run(ss, ops) && k < |ops| && Proper(ss[k]) && Allowed(ss[k], ops[k]) && line == Picked(ss[k], ops[k]) != NONE
    requires EnabledOnly(ss, ops, k + 1)
    ensures Registered(ops[..k], line) != []
  {
    EnabledMeansHandled(ss, ops, k, line);
    ListsAreInOrder(ss, ops, k, line);
  }

  /** So with every line masked at the start, interrupts of enabled lines only never end the program. */
  lemma EnabledLinesAreSafe(ss: seq<State>, ops: seq<Op>, i: nat)
    requires Run(ss, ops) && i <= |ops| && EnabledOnly(ss, ops, i)
    ensures !ss[i].halted
  {
    HaltsExactly(ss, ops, i);
    if i > 0 && Picked(ss[i - 1], ops[i - 1]) != NONE {
      PickedIsHandled(ss, ops, i - 1, Picked(ss[i - 1], ops[i - 1]));
    }
  }
}
