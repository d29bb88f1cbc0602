/** The bit counters of the bitcount benchmark (bitcnt_1.c to bitcnt_4.c, bitcnts.c), on 32-bit words. */
module Bitcount {
  import opened Common

  function Bit(x: Word): nat {
    if x & 1 == 1 then 1 else 0
  }

  /** The number of ones in x. */
  function Pop(x: Word): nat
    decreases x
  {
    if x == 0 then 0 else Bit(x) + Pop(x >> 1)
  }

  lemma Zero(x: Word)
    requires x == 0
    ensures Bit(x) == 0 && x >> 1 == 0
  {
  }

  /** One step, h being the half of x. */
  lemma PopFrom(x: Word, h: Word)
    requires h == x >> 1
    ensures Pop(x) == Bit(x) + Pop(h)
  {
    if x == 0 {
      Zero(x);
    }
  }

  // ----- Clearing the lowest one (bitcnt_1.c) -----

  lemma ClearOdd(x: Word, y: Word)
    requires x & 1 == 1 && y == x & (x - 1)
    ensures Bit(x) == 1 && Bit(y) == 0 && y >> 1 == x >> 1
  {
  }

  lemma ClearEvenBits(x: Word)
    requires x & 1 == 0 && x != 0
    ensures Bit(x & (x - 1)) == 0 && (x & (x - 1)) >> 1 == (x >> 1) & ((x >> 1) - 1) && x >> 1 != 0
  {
  }

  lemma ClearEven(x: Word, y: Word, h: Word, g: Word)
    requires x & 1 == 0 && x != 0 && y == x & (x - 1) && h == x >> 1 && g == h & (h - 1)
    ensures Bit(x) == 0 && Bit(y) == 0 && y >> 1 == g && h != 0
  {
    ClearEvenBits(x);
  }

  lemma HalfIsLess(x: Word, h: Word)
    requires x != 0 && h == x >> 1
    ensures h < x
  {
  }

  lemma Parity(x: Word)
    requires x & 1 != 1
    ensures x & 1 == 0
  {
  }

  /** x & (x - 1) has one bit less than x. */
  lemma {:induction false} ClearLowest(x: Word, y: Word)
    requires x != 0 && y == x & (x - 1)
    ensures Pop(y) == Pop(x) - 1
    decreases x
  {
    var h := x >> 1;
    PopFrom(x, h);
    if x & 1 == 1 {
      ClearOdd(x, y);
      PopFrom(y, h);
    } else {
      Parity(x);
      var g := h & (h - 1);
      ClearEven(x, y, h, g);
      HalfIsLess(x, h);
      ClearLowest(h, g);
      PopFrom(y, g);
    }
  }

  /** n counts the rounds of the loop: there is one for each bit that is set. */
  method BitCount(x0: Word) returns (n: int)
    ensures n == Pop(x0)
  {
    var x := x0;
    n := 0;
    if x != 0 {
      n := n + 1;
      ClearLowest(x, x & (x - 1));
      x := x & (x - 1);
      while x != 0
        invariant n + Pop(x) == Pop(x0)
        decreases x
      {
        n := n + 1;
        ClearLowest(x, x & (x - 1));
        ClearedIsLess(x);
        x := x & (x - 1);
      }
    }
  }

  lemma ClearedIsLess(x: Word)
    requires x != 0
    ensures x & (x - 1) < x
  {
  }

  // ----- Nibbles -----

  /** The ones in the lowest 2, 4, 8 and 16 bits. */
  function Pop2(x: Word): nat {
    Bit(x) + Bit(x >> 1)
  }

  function Pop4(x: Word): nat {
    Pop2(x) + Pop2(x >> 2)
  }

  function Pop8(x: Word): nat {
    Pop4(x) + Pop4(x >> 4)
  }

  function Pop16(x: Word): nat {
    Pop8(x) + Pop8(x >> 8)
  }

  lemma ShiftTwice(x: Word)
    ensures (x >> 1) >> 1 == x >> 2 && (x >> 2) >> 2 == x >> 4 && (x >> 4) >> 4 == x >> 8
    ensures (x >> 8) >> 8 == x >> 16 && (x >> 16) >> 16 == 0
  {
  }

  lemma Peel2(x: Word, r: Word)
    requires r == x >> 2
    ensures Pop(x) == Pop2(x) + Pop(r)
  {
    var h := x >> 1;
    PopFrom(x, h);
    ShiftTwice(x);
    PopFrom(h, r);
  }

  lemma Peel4(x: Word, r: Word)
    requires r == x >> 4
    ensures Pop(x) == Pop4(x) + Pop(r)
  {
    var h := x >> 2;
    Peel2(x, h);
    ShiftTwice(x);
    Peel2(h, r);
  }

  lemma Peel8(x: Word, r: Word)
    requires r == x >> 8
    ensures Pop(x) == Pop8(x) + Pop(r)
  {
    var h := x >> 4;
    Peel4(x, h);
    ShiftTwice(x);
    Peel4(h, r);
  }

  lemma Peel16(x: Word, r: Word)
    requires r == x >> 16
    ensures Pop(x) == Pop16(x) + Pop(r)
  {
    var h := x >> 8;
    Peel8(x, h);
    ShiftTwice(x);
    Peel8(h, r);
  }

  /** The ones of the two halves. */
  lemma PopHalves(x: Word)
    ensures Pop(x) == Pop16(x) + Pop16(x >> 16)
  {
    var h := x >> 16;
    Peel16(x, h);
    ShiftTwice(x);
    Peel16(h, 0);
  }

  // ----- The parallel sum (bitcnt_2.c) -----

  function Pairs(x: Word): Word {
    ((x & 0xAAAAAAAA) >> 1) + (x & 0x55555555)
  }

  function Quads(x: Word): Word {
    ((x & 0xCCCCCCCC) >> 2) + (x & 0x33333333)
  }

  function Octets(x: Word): Word {
    ((x & 0xF0F0F0F0) >> 4) + (x & 0x0F0F0F0F)
  }

  function Halves(x: Word): Word {
    ((x & 0xFF00FF00) >> 8) + (x & 0x00FF00FF)
  }

  function Whole(x: Word): Word {
    ((x & 0xFFFF0000) >> 16) + (x & 0x0000FFFF)
  }

  function ParallelSum(x: Word): Word {
    Whole(Halves(Octets(Quads(Pairs(x)))))
  }

  /** Pop4 and Pop8 in 32-bit arithmetic. */
  function Sum4(y: Word): Word {
    (y & 1) + ((y >> 1) & 1) + ((y >> 2) & 1) + ((y >> 3) & 1)
  }

  function Sum8(y: Word): Word {
    Sum4(y) + Sum4(y >> 4)
  }

  /** Field k of eight bits. */
  function Octet(s: Word, k: int): Word {
    if k == 0 then s & 0xff
    else if k == 1 then (s >> 8) & 0xff
    else if k == 2 then (s >> 16) & 0xff
    else (s >> 24) & 0xff
  }

  lemma OctetSums(x: Word)
    ensures var s := Octets(Quads(Pairs(x)));
            && Octet(s, 0) == Sum8(x) && Octet(s, 1) == Sum8(x >> 8)
            && Octet(s, 2) == Sum8(x >> 16) && Octet(s, 3) == Sum8((x >> 16) >> 8)
  {
  }

  lemma WholeSum(s: Word)
    requires Octet(s, 0) <= 8 && Octet(s, 1) <= 8 && Octet(s, 2) <= 8 && Octet(s, 3) <= 8
    ensures Whole(Halves(s)) == (Octet(s, 0) + Octet(s, 1)) + (Octet(s, 2) + Octet(s, 3))
  {
  }

  lemma Sum4Value(y: Word)
    ensures Sum4(y) <= 4 && Sum4(y) as int == Pop4(y)
  {
  }

  lemma AddValue(a: Word, b: Word, c: Word)
    requires a <= 16 && b <= 16 && c == a + b
    ensures c as int == a as int + b as int && c <= 32
  {
  }

  lemma Sum8Value(y: Word)
    ensures Sum8(y) <= 8 && Sum8(y) as int == Pop8(y)
  {
    Sum4Value(y);
    Sum4Value(y >> 4);
    AddValue(Sum4(y), Sum4(y >> 4), Sum8(y));
  }

  lemma OctetValues(x: Word, s: Word)
    requires s == Octets(Quads(Pairs(x)))
    ensures Octet(s, 0) <= 8 && Octet(s, 1) <= 8 && Octet(s, 2) <= 8 && Octet(s, 3) <= 8
    ensures Octet(s, 0) as int == Pop8(x) && Octet(s, 1) as int == Pop8(x >> 8)
    ensures Octet(s, 2) as int == Pop8(x >> 16) && Octet(s, 3) as int == Pop8((x >> 16) >> 8)
  {
    OctetSums(x);
    Sum8Value(x);
    Sum8Value(x >> 8);
    Sum8Value(x >> 16);
    Sum8Value((x >> 16) >> 8);
  }

  lemma AddFour(a: Word, b: Word, c: Word, d: Word, t: Word)
    requires a <= 8 && b <= 8 && c <= 8 && d <= 8 && t == (a + b) + (c + d)
    ensures t as int == (a as int + b as int) + (c as int + d as int)
  {
    var e, f := a + b, c + d;
    AddValue(a, b, e);
    AddValue(c, d, f);
    AddValue(e, f, t);
  }

  lemma WholeValue(s: Word, t: Word)
    requires Octet(s, 0) <= 8 && Octet(s, 1) <= 8 && Octet(s, 2) <= 8 && Octet(s, 3) <= 8
    requires t == Whole(Halves(s))
    ensures t as int == (Octet(s, 0) as int + Octet(s, 1) as int) + (Octet(s, 2) as int + Octet(s, 3) as int)
  {
    var a, b, c, d := Octet(s, 0), Octet(s, 1), Octet(s, 2), Octet(s, 3);
    WholeSum(s);
    AddFour(a, b, c, d, t);
  }

  /** Adding neighbouring fields of 1, 2, 4, 8 and 16 bits counts the ones. */
  lemma ParallelSumIsPop(x: Word)
    ensures ParallelSum(x) as int == Pop(x)
  {
    var s := Octets(Quads(Pairs(x)));
    OctetValues(x, s);
    WholeValue(s, ParallelSum(x));
    PopHalves(x);
  }

  // ----- Table lookup (bitcnt_3.c, bitcnt_4.c) -----

  /** Line r of the table `bits`, which the source writes sixteen entries to a line. */
  function Line(r: int): (line: seq<int>)
    requires 0 <= r < 16
    ensures |line| == 16
  {
    match r
    case 0 => [0, 1, 1, 2, 1, 2, 2, 3, 1, 2, 2, 3, 2, 3, 3, 4]
    case 1 => [1, 2, 2, 3, 2, 3, 3, 4, 2, 3, 3, 4, 3, 4, 4, 5]
    case 2 => [1, 2, 2, 3, 2, 3, 3, 4, 2, 3, 3, 4, 3, 4, 4, 5]
    case 3 => [2, 3, 3, 4, 3, 4, 4, 5, 3, 4, 4, 5, 4, 5, 5, 6]
    case 4 => [1, 2, 2, 3, 2, 3, 3, 4, 2, 3, 3, 4, 3, 4, 4, 5]
    case 5 => [2, 3, 3, 4, 3, 4, 4, 5, 3, 4, 4, 5, 4, 5, 5, 6]
    case 6 => [2, 3, 3, 4, 3, 4, 4, 5, 3, 4, 4, 5, 4, 5, 5, 6]
    case 7 => [3, 4, 4, 5, 4, 5, 5, 6, 4, 5, 5, 6, 5, 6, 6, 7]
    case 8 => [1, 2, 2, 3, 2, 3, 3, 4, 2, 3, 3, 4, 3, 4, 4, 5]
    case 9 => [2, 3, 3, 4, 3, 4, 4, 5, 3, 4, 4, 5, 4, 5, 5, 6]
    case 10 => [2, 3, 3, 4, 3, 4, 4, 5, 3, 4, 4, 5, 4, 5, 5, 6]
    case 11 => [3, 4, 4, 5, 4, 5, 5, 6, 4, 5, 5, 6, 5, 6, 6, 7]
    case 12 => [2, 3, 3, 4, 3, 4, 4, 5, 3, 4, 4, 5, 4, 5, 5, 6]
    case 13 => [3, 4, 4, 5, 4, 5, 5, 6, 4, 5, 5, 6, 5, 6, 6, 7]
    case 14 => [3, 4, 4, 5, 4, 5, 5, 6, 4, 5, 5, 6, 5, 6, 6, 7]
    case 15 => [4, 5, 5, 6, 5, 6, 6, 7, 5, 6, 6, 7, 6, 7, 7, 8]
  }

  /** bits[y]. */
  function Bits(y: Word): int
    requires y < 256
  {
    LineIndex(y);
    Line((y >> 4) as int)[(y & 15) as int]
  }

  lemma LineIndex(y: Word)
    requires y < 256
    ensures 0 <= (y >> 4) as int < 16 && 0 <= (y & 15) as int < 16
  {
  }

  function Small(c: int): int {
    if c == 0 then 0
    else if c == 1 || c == 2 || c == 4 || c == 8 then 1
    else if c == 7 || c == 11 || c == 13 || c == 14 then 3
    else if c == 15 then 4
    else 2
  }

  function Shifted(k: int): (line: seq<int>)
    ensures |line| == 16
  {
    [k, k + 1, k + 1, k + 2, k + 1, k + 2, k + 2, k + 3, k + 1, k + 2, k + 2, k + 3, k + 2, k + 3, k + 3, k + 4]
  }

  /** The lines differ by what the upper nibble adds. */
  lemma LineIsShifted(r: int)
    requires 0 <= r < 16
    ensures Line(r) == Shifted(Small(r))
  {
  }

  lemma ShiftedEntry(k: int, c: int)
    requires 0 <= c < 16
    ensures Shifted(k)[c] == k + Small(c)
  {
  }

  lemma NibbleIsSmall(x: Word)
    ensures 0 <= (x & 15) as int < 16 && Pop4(x) == Small((x & 15) as int)
  {
    var b := x & 15;
    if b == 0 {} else if b == 1 {} else if b == 2 {} else if b == 3 {} else if b == 4 {} else if b == 5 {}
    else if b == 6 {} else if b == 7 {} else if b == 8 {} else if b == 9 {} else if b == 10 {} else if b == 11 {}
    else if b == 12 {} else if b == 13 {} else if b == 14 {} else {}
  }

  /** Each entry of the table counts the ones of its index. */
  lemma BitsIsPop(y: Word)
    requires y < 256
    ensures Bits(y) == Pop8(y) == Pop(y)
  {
    LineIndex(y);
    LineIsShifted((y >> 4) as int);
    ShiftedEntry(Small((y >> 4) as int), (y & 15) as int);
    NibbleIsSmall(y);
    NibbleIsSmall(y >> 4);
    HighNibble(y);
    Peel8(y, 0);
  }

  lemma HighNibble(y: Word)
    requires y < 256
    ensures (y >> 4) & 15 == y >> 4 && y >> 8 == 0
  {
  }

  lemma NibbleEntry(x: Word, n: Word)
    requires n == x & 15
    ensures n < 256 && Bits(n) == Pop4(x)
  {
    LowNibble(x);
    BitsIsPop(n);
  }

  lemma LowNibble(x: Word)
    ensures Pop4(x & 15) == Pop4(x) && Pop4((x & 15) >> 4) == 0 && x & 15 < 256
  {
  }

  lemma OctetEntry(x: Word, n: Word)
    requires n == x & 0xff
    ensures n < 256 && Bits(n) == Pop8(x)
  {
    LowOctet(x);
    BitsIsPop(n);
  }

  lemma LowOctet(x: Word)
    ensures Pop4(x & 0xff) == Pop4(x) && Pop4((x & 0xff) >> 4) == Pop4(x >> 4) && x & 0xff < 256
  {
  }

  /** The table entry for nibble k of x, as the source masks and shifts it out. */
  function Entry(x: Word, k: int): Word
    requires 0 <= k < 8
  {
    match k
    case 0 => x & 0x0000000F
    case 1 => (x & 0x000000F0) >> 4
    case 2 => (x & 0x00000F00) >> 8
    case 3 => (x & 0x0000F000) >> 12
    case 4 => (x & 0x000F0000) >> 16
    case 5 => (x & 0x00F00000) >> 20
    case 6 => (x & 0x0F000000) >> 24
    case 7 => (x & 0xF0000000) >> 28
  }

  lemma EntryIsNibble(x: Word)
    ensures Entry(x, 0) == x & 15 && Entry(x, 1) == (x >> 4) & 15
    ensures Entry(x, 2) == (x >> 8) & 15 && Entry(x, 3) == ((x >> 8) >> 4) & 15
  {
  }

  lemma EntryBound(x: Word, k: int)
    requires 0 <= k < 8
    ensures Entry(x, k) < 256
  {
  }

  function EntryBits(x: Word, k: int): int
    requires 0 <= k < 8
  {
    EntryBound(x, k);
    Bits(Entry(x, k))
  }

  /** ntbl_bitcount: one look-up for each nibble. */
  function NtblBitcount(x: Word): int {
    EntryBits(x, 0) + EntryBits(x, 1) + EntryBits(x, 2) + EntryBits(x, 3)
    + EntryBits(x, 4) + EntryBits(x, 5) + EntryBits(x, 6) + EntryBits(x, 7)
  }

  lemma NtblBitcountIsPop(x: Word)
    ensures NtblBitcount(x) == Pop(x)
  {
    LowEntries(x);
    HighEntries(x, x >> 16);
    PopHalves(x);
  }

  lemma LowEntries(x: Word)
    ensures EntryBits(x, 0) + EntryBits(x, 1) + EntryBits(x, 2) + EntryBits(x, 3) == Pop16(x)
  {
    EntryIsNibble(x);
    NibbleEntry(x, Entry(x, 0));
    NibbleEntry(x >> 4, Entry(x, 1));
    NibbleEntry(x >> 8, Entry(x, 2));
    NibbleEntry((x >> 8) >> 4, Entry(x, 3));
  }

  lemma HighEntry(x: Word, h: Word)
    requires h == x >> 16
    ensures Entry(x, 4) == Entry(h, 0) && Entry(x, 5) == Entry(h, 1)
    ensures Entry(x, 6) == Entry(h, 2) && Entry(x, 7) == Entry(h, 3)
  {
  }

  lemma HighEntries(x: Word, h: Word)
    requires h == x >> 16
    ensures EntryBits(x, 4) + EntryBits(x, 5) + EntryBits(x, 6) + EntryBits(x, 7) == Pop16(h)
  {
    HighEntry(x, h);
    LowEntries(h);
  }

  lemma OctetBound(x: Word, k: int)
    requires 0 <= k < 4
    ensures Octet(x, k) < 256
  {
  }

  function OctetBits(x: Word, k: int): int
    requires 0 <= k < 4
  {
    OctetBound(x, k);
    Bits(Octet(x, k))
  }

  /** BW_btbl_bitcount: one look-up for each byte. */
  function BwBtblBitcount(x: Word): int {
    OctetBits(x, 0) + OctetBits(x, 1) + OctetBits(x, 3) + OctetBits(x, 2)
  }

  lemma BwBtblBitcountIsPop(x: Word)
    ensures BwBtblBitcount(x) == Pop(x)
  {
    OctetShifts(x);
    OctetEntry(x, Octet(x, 0));
    OctetEntry(x >> 8, Octet(x, 1));
    OctetEntry(x >> 16, Octet(x, 2));
    OctetEntry((x >> 16) >> 8, Octet(x, 3));
    PopHalves(x);
  }

  lemma OctetShifts(x: Word)
    ensures Octet(x, 3) == ((x >> 16) >> 8) & 0xff
  {
  }

  /** AR_btbl_bitcount: the same with a pointer that walks over the bytes. */
  method ArBtblBitcount(x: Word) returns (accu: int)
    ensures accu == Pop(x)
  {
    var p := 0;
    accu := OctetBits(x, p);
    p := p + 1;
    accu := accu + OctetBits(x, p);
    p := p + 1;
    accu := accu + OctetBits(x, p);
    p := p + 1;
    accu := accu + OctetBits(x, p);
    BwBtblBitcountIsPop(x);
  }

  // ----- The recursive counter (bitcnt_4.c): >> on a negative long copies the sign -----

  const SIGN: Word := 0x80000000

  function Asr4(x: Word): Word {
    if x < SIGN then x >> 4 else (x >> 4) | 0xF0000000
  }

  lemma NibbleBound(x: Word)
    ensures x & 15 < 256
  {
  }

  /** ntbl_bitcnt with at most `depth` nested calls; None when it needs more. */
  function NtblBitcnt(x: Word, depth: nat): Option<int>
    decreases depth
  {
    if depth == 0 then None
    else
      NibbleBound(x);
      var cnt := Bits(x & 15);
      var x' := Asr4(x);
      if x' == 0 then Some(cnt)
      else
        match NtblBitcnt(x', depth - 1)
        case None => None
        case Some(v) => Some(cnt + v)
  }

  lemma Asr4Facts(x: Word)
    ensures x < SIGN ==> Asr4(x) == x >> 4 < SIGN
    ensures x >= SIGN ==> Asr4(x) >= SIGN && Asr4(x) != 0
  {
  }

  /** The recursion returns, eight calls deep at most, with the number of ones exactly when its argument is
      not negative; for a negative one it never ends. */
  lemma NtblBitcntReturnsExactly(x: Word)
    ensures (exists depth :: NtblBitcnt(x, depth).Some?) <==> x < SIGN
    ensures x < SIGN ==> NtblBitcnt(x, 8) == Some(Pop(x))
  {
    if x < SIGN {
      NtblBitcntCounts(x, 8);
    } else {
      forall depth
        ensures NtblBitcnt(x, depth).None?
      {
        NegativeNeverReturns(x, depth);
      }
    }
  }

  /** The least negative number to see it with. */
  lemma SignBitNeverReturns(depth: nat)
    ensures NtblBitcnt(0x8000_0000, depth) == None
  {
    NegativeNeverReturns(0x8000_0000, depth);
  }

  lemma {:induction false} NegativeNeverReturns(x: Word, depth: nat)
    requires x >= SIGN
    ensures NtblBitcnt(x, depth).None?
    decreases depth
  {
    if depth > 0 {
      Asr4Facts(x);
      NegativeNeverReturns(Asr4(x), depth - 1);
    }
  }

  /** The greatest number with k nibbles. */
  function Most(k: int): Word
    requires 1 <= k <= 8
  {
    match k
    case 1 => 0xF
    case 2 => 0xFF
    case 3 => 0xFFF
    case 4 => 0xFFFF
    case 5 => 0xFFFFF
    case 6 => 0xFFFFFF
    case 7 => 0xFFFFFFF
    case 8 => 0xFFFFFFFF
  }

  lemma NibbleLess(x: Word, r: Word, k: int)
    requires 1 <= k <= 8 && x <= Most(k) && r == x >> 4
    ensures if k == 1 then r == 0 else r <= Most(k - 1)
  {
  }

  lemma OneCall(x: Word, r: Word, k: nat)
    requires 1 <= k && r == Asr4(x) == x >> 4 && (r == 0 || NtblBitcnt(r, k - 1) == Some(Pop(r)))
    ensures NtblBitcnt(x, k) == Some(Pop(x))
  {
    NibbleEntry(x, x & 15);
    Peel4(x, r);
  }

  lemma {:induction false} NtblBitcntCounts(x: Word, k: int)
    requires 1 <= k <= 8 && x <= Most(k) && x < SIGN
    ensures NtblBitcnt(x, k) == Some(Pop(x))
    decreases k
  {
    var r := Asr4(x);
    Asr4Facts(x);
    NibbleLess(x, r, k);
    if r != 0 {
      NtblBitcntCounts(r, k - 1);
    }
    OneCall(x, r, k);
  }

  // ----- Shift and count (bitcnts.c) -----

  function Asr1(x: Word): Word {
    if x < SIGN then x >> 1 else (x >> 1) | SIGN
  }

  /** m masks the bits of x that are still to be counted: a run of low ones. */
  lemma RunOfOnes(m: Word)
    requires m & (m + 1) == 0 && m != 0
    ensures (m >> 1) & ((m >> 1) + 1) == 0 && m & 1 == 1
  {
  }

  lemma HalfMasked(x: Word, m: Word)
    ensures (x & m) >> 1 == (x >> 1) & (m >> 1) && ((x >> 1) | SIGN) & (m >> 1) == (x >> 1) & (m >> 1)
  {
  }

  lemma BitMasked(x: Word, m: Word)
    requires m & 1 == 1
    ensures Bit(x & m) == Bit(x) && Bit(m) == 1
  {
  }

  lemma MaskStepPlus(x: Word, m: Word)
    requires m & 1 == 1 && x < SIGN
    ensures Bit(x & m) == Bit(x) && Asr1(x) & (m >> 1) == (x & m) >> 1
  {
    HalfMasked(x, m);
  }

  lemma MaskStepMinus(x: Word, m: Word)
    requires m & 1 == 1 && x >= SIGN
    ensures Bit(x & m) == Bit(x) && Asr1(x) & (m >> 1) == (x & m) >> 1
  {
    HalfMasked(x, m);
  }

  lemma MaskStep(x: Word, m: Word)
    requires m & 1 == 1
    ensures Bit(x & m) == Bit(x) && Asr1(x) & (m >> 1) == (x & m) >> 1
  {
    if x < SIGN {
      MaskStepPlus(x, m);
    } else {
      MaskStepMinus(x, m);
    }
  }

  /** One round of the loop: the mask m becomes l, and what is left to count, a, becomes b. */
  lemma ShiftStep(x: Word, y: Word, m: Word, a: Word) returns (l: Word, b: Word)
    requires m & (m + 1) == 0 && Pop(m) > 0 && a == x & m && y == Asr1(x)
    ensures b == y & l && l & (l + 1) == 0
    ensures Pop(l) == Pop(m) - 1 && Pop(a) == Bit(x) + Pop(b)
  {
    NotEmpty(m);
    RunOfOnes(m);
    l := m >> 1;
    b := y & l;
    MaskStep(x, m);
    BitMasked(x, m);
    PopFrom(m, l);
    PopFrom(a, b);
  }

  lemma NotEmpty(m: Word)
    requires Pop(m) > 0
    ensures m != 0
  {
  }

  lemma {:induction false} PopIsZero(x: Word)
    requires Pop(x) == 0
    ensures x == 0
    decreases x
  {
    if x != 0 {
      PopIsZero(x >> 1);
      NoBits(x);
    }
  }

  lemma NoBits(x: Word)
    requires x & 1 != 1 && x >> 1 == 0
    ensures x == 0
  {
  }

  lemma AllOnes()
    ensures Pop(0xFFFFFFFF) == 32
  {
    ParallelSumIsPop(0xFFFFFFFF);
    assert ParallelSum(0xFFFFFFFF) == 32;
  }

  lemma AllMask(x: Word)
    ensures x & 0xFFFFFFFF == x
  {
  }

  /** What the loop adds in its last k rounds. */
  function Rounds(x: Word, k: nat): int
    decreases k
  {
    if x == 0 || k == 0 then 0 else Bit(x) + Rounds(Asr1(x), k - 1)
  }

  lemma {:induction false} RoundsCount(x: Word, k: nat, m: Word, a: Word)
    requires m & (m + 1) == 0 && Pop(m) == k && a == x & m
    ensures Rounds(x, k) == Pop(a)
    decreases k
  {
    if x == 0 || k == 0 {
      NothingLeft(x, m, a);
    } else {
      var y := Asr1(x);
      var l, b := ShiftStep(x, y, m, a);
      RoundsCount(y, k - 1, l, b);
    }
  }

  lemma NothingLeft(x: Word, m: Word, left: Word)
    requires left == x & m && (x == 0 || Pop(m) == 0)
    ensures Pop(left) == 0
  {
    if x != 0 {
      PopIsZero(m);
    }
    Masked(x, m);
  }

  lemma Masked(x: Word, m: Word)
    requires x == 0 || m == 0
    ensures x & m == 0
  {
  }

  lemma AllRoundsCount(x: Word)
    ensures Rounds(x, 32) == Pop(x)
  {
    AllOnes();
    AllMask(x);
    RoundsCount(x, 32, 0xFFFFFFFF, x);
  }

  method BitShifter(x0: Word) returns (n: int)
    ensures n == Pop(x0)
  {
    var x, i := x0, 0;
    n := 0;
    while x != 0 && i < 32
      invariant 0 <= i <= 32 && n + Rounds(x, 32 - i) == Rounds(x0, 32)
      decreases 32 - i
    {
      n := n + Bit(x);
      i, x := i + 1, Asr1(x);
    }
    AllRoundsCount(x0);
  }
}
