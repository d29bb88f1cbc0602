/** Address generation for wrapping bursts (axi.h), after the pseudocode of section A3.4.2 of the
    AMBA AXI and ACE Protocol Specification. Addresses are 32-bit and wrap. */
module Axi {
  import opened Common

  /** The fields of one AXITransaction. */
  datatype Txn = Txn(
    busy: bool, isWrite: bool, aligned: bool, n: int, addr: int,
    start: int, numberBytes: int, burstLength: int, alignedAddress: int, lower: int, upper: int)

  const IDLE: Txn := Txn(false, false, false, 0, 0, 0, 0, 0, 0, 0, 0)

  /** AxSIZE is three bits wide and AxLEN eight. */
  predicate Encodable(addr: int, size: int, len: int) {
    0 <= addr < TWO_32 && 0 <= size <= 7 && 0 <= len <= 255
  }

  /** Two to the power of size. */
  function Bytes(size: int): (r: int)
    requires 0 <= size <= 7
    ensures r in {1, 2, 4, 8, 16, 32, 64, 128}
  {
    match size
    case 0 => 1
    case 1 => 2
    case 2 => 4
    case 3 => 8
    case 4 => 16
    case 5 => 32
    case 6 => 64
    case _ => 128
  }

  function Begin(t: Txn, addr: int, size: int, len: int): Txn
    requires Encodable(addr, size, len)
  {
    var nb := Bytes(size);
    var dtsize := nb * (len + 1);
    var lower := addr / dtsize * dtsize;
    Txn(t.busy, t.isWrite, false, 1, addr, addr, nb, len + 1, addr / nb * nb, lower, (lower + dtsize) % TWO_32)
  }

  function Advance(t: Txn): Txn {
    var next := if t.aligned then t.addr + t.numberBytes else t.alignedAddress + t.numberBytes;
    var wrapped := next % TWO_32;
    t.(n := t.n + 1, aligned := true, addr := if wrapped >= t.upper then t.lower else wrapped)
  }

  predicate Last(t: Txn) {
    t.n == t.burstLength
  }

  /** The transaction after k handshakes. */
  function Beat(t: Txn, k: nat): Txn {
    if k == 0 then t else Advance(Beat(t, k - 1))
  }

  /** The transaction object of the source, updated in place. */
  class AXITransaction {
    var busy: bool
    var isWrite: bool
    var aligned: bool
    var n: int
    var addr: int
    var start: int
    var numberBytes: int
    var burstLength: int
    var alignedAddress: int
    var lower: int
    var upper: int

    function View(): Txn
      reads this
    {
      Txn(busy, isWrite, aligned, n, addr, start, numberBytes, burstLength, alignedAddress, lower, upper)
    }

    constructor ()
      ensures View() == IDLE
    {
      busy, isWrite, aligned := false, false, false;
      n, addr, start, numberBytes, burstLength := 0, 0, 0, 0, 0;
      alignedAddress, lower, upper := 0, 0, 0;
    }

    method Reset()
      modifies this
      ensures View() == IDLE
    {
      busy, isWrite, aligned := false, false, false;
      n, addr, start, numberBytes, burstLength := 0, 0, 0, 0, 0;
      alignedAddress, lower, upper := 0, 0, 0;
    }

    method Init(axAddr: int, axSize: int, axLen: int)
      requires Encodable(axAddr, axSize, axLen)
      modifies this
      ensures View() == Begin(old(View()), axAddr, axSize, axLen)
    {
      start := axAddr;
      numberBytes := Bytes(axSize);
      burstLength := axLen + 1;
      var dtsize := numberBytes * burstLength;
      alignedAddress := start / numberBytes * numberBytes;
      lower := start / dtsize * dtsize;
      upper := (lower + dtsize) % TWO_32;
      aligned := false;
      n := 1;
      addr := start;
    }

    method Sync()
      modifies this
      ensures View() == Advance(old(View()))
    {
      n := n + 1;
      if aligned {
        addr := (addr + numberBytes) % TWO_32;
      } else {
        addr := (alignedAddress + numberBytes) % TWO_32;
        aligned := true;
      }
      if addr >= upper {
        addr := lower;
      }
    }

    /** Structure assignment. */
    method CopyFrom(that: AXITransaction)
      modifies this
      ensures View() == old(that.View())
    {
      busy, isWrite, aligned := that.busy, that.isWrite, that.aligned;
      n, addr, start := that.n, that.addr, that.start;
      numberBytes, burstLength := that.numberBytes, that.burstLength;
      alignedAddress, lower, upper := that.alignedAddress, that.lower, that.upper;
    }
  }

  // ----- Slots: the burst's window cut into pieces of numberBytes -----

  /** The slot that holds the start address. */
  function FirstSlot(addr: int, size: int, len: int): int
    requires Encodable(addr, size, len)
  {
    addr / Bytes(size) % (len + 1)
  }

  /** The slot k beats after slot j, in a window of n slots; k is at most n. */
  function SlotAfter(j: int, k: int, n: int): int {
    if j + k < n then j + k else j + k - n
  }

  lemma MulOrder(a: int, b: int, c: int)
    requires a < b && 0 < c
    ensures c * a + c <= c * b
  {
    Distribute(c, a, b - a);
    Distribute(c, 1, b - a - 1);
    NonNegative(c, b - a - 1);
  }

  lemma Distribute(c: int, a: int, b: int)
    ensures c * (a + b) == c * a + c * b
  {
  }

  lemma NonNegative(x: int, y: int)
    requires 0 <= x && 0 <= y
    ensures 0 <= x * y
  {
  }

  /** Quotient and remainder are unique. */
  lemma DivUnique(x: int, d: int, q: int, r: int)
    requires 0 < d && x == d * q + r && 0 <= r < d
    ensures x / d == q && x % d == r
  {
    var q', r' := x / d, x % d;
    assert x == d * q' + r';
    if q' < q {
      MulOrder(q', q, d);
    } else if q < q' {
      MulOrder(q, q', d);
    }
  }

  lemma Regroup(nb: int, n: int, q: int, j: int, r: int)
    ensures nb * (n * q + j) + r == (nb * n) * q + (nb * j + r)
  {
  }

  /** Rounding down to a multiple of nb * n, then going up by whole pieces of nb. */
  lemma NestedDiv(x: int, nb: int, n: int)
    requires 0 <= x && 1 <= nb && 1 <= n
    ensures 1 <= nb * n
    ensures var j := x / nb % n; x / (nb * n) * (nb * n) + nb * j == x / nb * nb
  {
    var m, r := x / nb, x % nb;
    var q, j := m / n, m % n;
    Regroup(nb, n, q, j, r);
    MulOrder(j, n, nb);
    assert 0 <= nb * j;
    DivUnique(x, nb * n, q, nb * j + r);
    Regroup(nb, n, q, j, 0);
  }

  /** Where the window and the aligned start lie: lower and alignedAddress in closed form. */
  lemma Window(addr: int, size: int, len: int)
    requires Encodable(addr, size, len)
    ensures var t := Begin(IDLE, addr, size, len); var j := FirstSlot(addr, size, len);
            && 0 <= j <= len
            && t.alignedAddress == t.lower + t.numberBytes * j
            && t.alignedAddress <= addr < t.alignedAddress + t.numberBytes
            && t.alignedAddress + t.numberBytes <= TWO_32
            && 0 <= t.lower
            && t.upper == (t.lower + t.numberBytes * t.burstLength) % TWO_32
            && (WindowFits(addr, size, len) ==> t.upper == t.lower + t.numberBytes * t.burstLength < TWO_32)
  {
    WindowOf(addr, Bytes(size), len + 1);
    FitsBelow(addr, Bytes(size));
  }

  lemma WindowOf(x: int, nb: int, n: int)
    requires 0 <= x && 1 <= nb && 1 <= n
    ensures 1 <= nb * n && 0 <= x / (nb * n) * (nb * n)
    ensures 0 <= x / nb % n < n
    ensures x / nb * nb == x / (nb * n) * (nb * n) + nb * (x / nb % n)
    ensures x / nb * nb <= x < x / nb * nb + nb
  {
    NestedDiv(x, nb, n);
    assert 0 <= x / (nb * n);
  }

  /** 2^32 is a multiple of every transfer size, so an aligned transfer never crosses it. */
  lemma FitsBelow(addr: int, nb: int)
    requires 0 <= addr < TWO_32 && nb in {1, 2, 4, 8, 16, 32, 64, 128}
    ensures addr / nb * nb + nb <= TWO_32
  {
  }

  // ----- Beat addresses -----

  /** The window ends below 2^32, so its upper boundary is representable. */
  predicate WindowFits(addr: int, size: int, len: int)
    requires Encodable(addr, size, len)
  {
    var dtsize := Bytes(size) * (len + 1);
    addr / dtsize * dtsize + dtsize < TWO_32
  }

  function PowerOfTwo(e: nat): (r: int)
    ensures r > 0
  {
    if e == 0 then 1 else 2 * PowerOfTwo(e - 1)
  }

  lemma BytesIsPower(size: int)
    requires 0 <= size <= 7
    ensures Bytes(size) == PowerOfTwo(size)
  {
    if size > 0 {
      BytesIsPower(size - 1);
    }
  }

  /** The address of beat k > 0 that section A3.4.2 asks for: transfers of 2^size bytes, counted from the aligned
      start around the container of the whole burst. */
  function WrapAddress(addr: int, size: int, len: int, k: nat): int
    requires Encodable(addr, size, len)
  {
    var nb := PowerOfTwo(size);
    var dtsize := nb * (len + 1);
    var lower := addr / dtsize * dtsize;
    lower + (addr / nb * nb - lower + k * nb) % dtsize
  }

  /** The first byte of slot j. */
  function SlotAddress(addr: int, size: int, len: int, j: int): int
    requires Encodable(addr, size, len)
  {
    Begin(IDLE, addr, size, len).lower + Bytes(size) * j
  }

  /** The same, from the fields that init computes. */
  function WrapOfFields(t: Txn, k: nat): int
    requires 0 < t.numberBytes && 0 < t.burstLength
  {
    t.lower + (t.alignedAddress - t.lower + k * t.numberBytes) % (t.numberBytes * t.burstLength)
  }

  lemma WrapFromFields(addr: int, size: int, len: int, k: nat)
    requires Encodable(addr, size, len)
    ensures WrapAddress(addr, size, len, k) == WrapOfFields(Begin(IDLE, addr, size, len), k)
  {
    BytesIsPower(size);
  }

  /** WrapAddress counts slots modulo the burst length. */
  lemma WrapIsSlot(addr: int, size: int, len: int, k: nat)
    requires Encodable(addr, size, len) && k <= len
    ensures WrapAddress(addr, size, len, k) == SlotAddress(addr, size, len, SlotAfter(FirstSlot(addr, size, len), k, len + 1))
  {
    WrapFromFields(addr, size, len, k);
    FieldsAreSlot(addr, size, len, k);
  }

  lemma FieldsAreSlot(addr: int, size: int, len: int, k: nat)
    requires Encodable(addr, size, len) && k <= len
    ensures WrapOfFields(Begin(IDLE, addr, size, len), k)
            == SlotAddress(addr, size, len, SlotAfter(FirstSlot(addr, size, len), k, len + 1))
  {
    Window(addr, size, len);
    var nb, n, j := Bytes(size), len + 1, FirstSlot(addr, size, len);
    var s := SlotAfter(j, k, n);
    var q := if j + k < n then 0 else 1;
    MulOrder(s, n, nb);
    assert 0 <= nb * s;
    assert nb * j + k * nb == (nb * n) * q + nb * s by {
      Regroup(nb, n, q, s, 0);
      assert nb * (j + k) == nb * j + k * nb;
    }
    DivUnique(nb * j + k * nb, nb * n, q, nb * s);
  }

  /** The fields that stay constant during a burst, and the beat counter. */
  lemma {:induction false} BeatConstants(t: Txn, k: nat)
    ensures var b := Beat(t, k);
            b == t.(n := t.n + k, aligned := b.aligned, addr := b.addr) && (k > 0 ==> b.aligned)
  {
    if k > 0 {
      BeatConstants(t, k - 1);
    }
  }

  /** Beat k > 0 of any burst: where the upper boundary is representable, it is at the slot k after the first; else
      at the lower boundary or below the window. */
  lemma BeatSlot(t0: Txn, addr: int, size: int, len: int, k: nat)
    requires Encodable(addr, size, len) && 1 <= k <= len + 1
    ensures var t, b := Begin(t0, addr, size, len), Beat(Begin(t0, addr, size, len), k);
            if WindowFits(addr, size, len)
            then b.addr == SlotAddress(addr, size, len, SlotAfter(FirstSlot(addr, size, len), k, len + 1))
            else b.addr == t.lower || 0 <= b.addr < t.upper <= t.lower
  {
    if WindowFits(addr, size, len) {
      FittingBeatSlot(t0, addr, size, len, k);
    } else {
      BeatConstants(Begin(t0, addr, size, len), k - 1);
      UpperWraps(addr, Bytes(size), len + 1);
    }
  }

  lemma {:induction false} FittingBeatSlot(t0: Txn, addr: int, size: int, len: int, k: nat)
    requires Encodable(addr, size, len) && WindowFits(addr, size, len) && 1 <= k <= len + 1
    ensures Beat(Begin(t0, addr, size, len), k).addr
            == SlotAddress(addr, size, len, SlotAfter(FirstSlot(addr, size, len), k, len + 1))
  {
    var t := Begin(t0, addr, size, len);
    var nb, n, j := Bytes(size), len + 1, FirstSlot(addr, size, len);
    Window(addr, size, len);
    var s := SlotAfter(j, k - 1, n);
    BeatConstants(t, k - 1);
    if k > 1 {
      FittingBeatSlot(t0, addr, size, len, k - 1);
    }
    AdvanceSlot(Beat(t, k - 1), nb, n, s);
  }

  /** In the window at the top the upper boundary is not above the lower one. */
  lemma UpperWraps(addr: int, nb: int, n: int)
    requires 0 <= addr < TWO_32 && 1 <= nb <= 128 && 1 <= n <= 256
    requires 1 <= nb * n && addr / (nb * n) * (nb * n) + nb * n >= TWO_32
    ensures var lower := addr / (nb * n) * (nb * n);
            lower < TWO_32 && (lower + nb * n) % TWO_32 == lower + nb * n - TWO_32 <= lower
  {
    SizeBound(nb, n);
    RoundsDown(addr, nb * n);
  }

  lemma SizeBound(nb: int, n: int)
    requires 1 <= nb <= 128 && 1 <= n <= 256
    ensures nb * n <= 128 * 256
  {
    NonNegative(128 - nb, n);
    Distribute(n, nb, 128 - nb);
  }

  lemma RoundsDown(x: int, d: int)
    requires 0 <= x && 1 <= d
    ensures 0 <= x / d * d <= x
  {
  }

  /** One step inside a window whose upper boundary is representable. */
  lemma AdvanceSlot(b: Txn, nb: int, n: int, s: int)
    requires 0 <= b.lower && 1 <= nb && 0 <= s < n && b.upper == b.lower + nb * n < TWO_32
    requires b.numberBytes == nb
    requires (if b.aligned then b.addr else b.alignedAddress) == b.lower + nb * s
    ensures Advance(b).addr == b.lower + nb * (if s + 1 < n then s + 1 else 0)
  {
    NextSlot(b.lower, nb, n, s);
  }

  /** One step inside the window, wrapping at its end. */
  lemma NextSlot(lower: int, nb: int, n: int, s: int)
    requires 0 <= lower && 1 <= nb && 0 <= s < n && lower + nb * n < TWO_32
    ensures 0 <= lower + nb * s + nb < TWO_32
    ensures lower + nb * s + nb >= lower + nb * n <==> s + 1 == n
    ensures nb * (s + 1) == nb * s + nb
  {
    assert 0 <= nb * s;
    if s + 1 < n {
      MulOrder(s + 1, n, nb);
    }
  }

  // ----- Theorems -----

  function RoundDown(x: int, nb: int): int
    requires 0 < nb
  {
    x / nb * nb
  }

  /** The address of beat k of a burst. */
  function BeatAddress(addr: int, size: int, len: int, k: nat): int
    requires Encodable(addr, size, len)
  {
    Beat(Begin(IDLE, addr, size, len), k).addr
  }

  lemma SlotIsAligned(addr: int, size: int, len: int, j: int)
    requires Encodable(addr, size, len)
    ensures RoundDown(SlotAddress(addr, size, len, j), Bytes(size)) == SlotAddress(addr, size, len, j)
  {
    var nb, n := Bytes(size), len + 1;
    var q := addr / (nb * n);
    Regroup(nb, n, q, 0, 0);
    var m := n * q + j;
    assert SlotAddress(addr, size, len, j) == nb * m by {
      assert q * (nb * n) == nb * (n * q);
      assert nb * m == nb * (n * q) + nb * j;
    }
    DivUnique(nb * m, nb, m, 0);
  }

  /** Beat k touches the slot k after the first, the first beat included. */
  lemma BeatTouches(addr: int, size: int, len: int, k: nat)
    requires Encodable(addr, size, len) && WindowFits(addr, size, len) && k <= len
    ensures RoundDown(BeatAddress(addr, size, len, k), Bytes(size))
            == SlotAddress(addr, size, len, SlotAfter(FirstSlot(addr, size, len), k, len + 1))
  {
    Window(addr, size, len);
    if k == 0 {
      assert BeatAddress(addr, size, len, 0) == addr;
    } else {
      BeatSlot(IDLE, addr, size, len, k);
      SlotIsAligned(addr, size, len, SlotAfter(FirstSlot(addr, size, len), k, len + 1));
    }
  }

  /** The beat that touches slot j. */
  function BeatOf(addr: int, size: int, len: int, j: int): int
    requires Encodable(addr, size, len)
  {
    var first := FirstSlot(addr, size, len);
    if first <= j then j - first else j - first + len + 1
  }

  /** Beat k is in slot j. */
  predicate Touches(addr: int, size: int, len: int, k: nat, j: int)
    requires Encodable(addr, size, len)
  {
    RoundDown(BeatAddress(addr, size, len, k), Bytes(size)) == SlotAddress(addr, size, len, j)
  }

  /** Some beat of the burst is in slot j. */
  ghost predicate Visited(addr: int, size: int, len: int, j: int)
    requires Encodable(addr, size, len)
  {
    exists k: nat :: k <= len && Touches(addr, size, len, k, j)
  }

  /** Some beat of the burst is in each slot of its window. */
  ghost predicate VisitsAll(addr: int, size: int, len: int)
    requires Encodable(addr, size, len)
  {
    forall j :: 0 <= j <= len ==> Visited(addr, size, len, j)
  }

  /** Exactly one beat is in each slot: the one that BeatOf names. */
  ghost predicate VisitsOnce(addr: int, size: int, len: int)
    requires Encodable(addr, size, len)
  {
    forall j, k: nat :: 0 <= j <= len && k <= len ==> (Touches(addr, size, len, k, j) <==> k == BeatOf(addr, size, len, j))
  }

  /** What a caller can check: the window ends below 2^32, or the burst is one beat, or two from the second slot. */
  predicate Regular(addr: int, size: int, len: int)
    requires Encodable(addr, size, len)
  {
    WindowFits(addr, size, len) || len == 0 || (len == 1 && FirstSlot(addr, size, len) == 1)
  }

  /** A burst visits every slot of its window, and then exactly once, just when it is regular. */
  lemma BurstIsPermutation(addr: int, size: int, len: int)
    requires Encodable(addr, size, len)
    ensures VisitsAll(addr, size, len) <==> Regular(addr, size, len)
    ensures VisitsOnce(addr, size, len) <==> Regular(addr, size, len)
    ensures forall j :: 0 <= j <= len ==> 0 <= BeatOf(addr, size, len, j) <= len
  {
    Window(addr, size, len);
    if Regular(addr, size, len) {
      forall j, k: nat | 0 <= j <= len && k <= len
        ensures Touches(addr, size, len, k, j) <==> k == BeatOf(addr, size, len, j)
      {
        RegularTouches(addr, size, len, k, j);
      }
    } else {
      SomeSlotIsMissed(addr, size, len);
    }
    if VisitsOnce(addr, size, len) {
      OnceIsAll(addr, size, len);
    }
  }

  lemma OnceIsAll(addr: int, size: int, len: int)
    requires Encodable(addr, size, len) && VisitsOnce(addr, size, len)
    requires forall j :: 0 <= j <= len ==> 0 <= BeatOf(addr, size, len, j) <= len
    ensures VisitsAll(addr, size, len)
  {
    forall j | 0 <= j <= len
      ensures Visited(addr, size, len, j)
    {
      var k: nat := BeatOf(addr, size, len, j);
      assert k <= len && Touches(addr, size, len, k, j);
    }
  }

  lemma RegularTouches(addr: int, size: int, len: int, k: nat, j: int)
    requires Encodable(addr, size, len) && Regular(addr, size, len) && 0 <= j <= len && k <= len
    ensures Touches(addr, size, len, k, j) <==> k == BeatOf(addr, size, len, j)
  {
    Window(addr, size, len);
    if WindowFits(addr, size, len) {
      BeatTouches(addr, size, len, k);
      SlotsDiffer(Bytes(size), SlotAfter(FirstSlot(addr, size, len), k, len + 1), j);
    } else {
      TopTouches(addr, size, len, k);
      SlotsDiffer(Bytes(size), if k == 0 then FirstSlot(addr, size, len) else 0, j);
    }
  }

  /** In the window at the top, the first beat is in its slot, and later ones in slot 0 or in none. */
  lemma TopTouches(addr: int, size: int, len: int, k: nat)
    requires Encodable(addr, size, len) && !WindowFits(addr, size, len) && k <= len
    ensures var at := RoundDown(BeatAddress(addr, size, len, k), Bytes(size));
            if k == 0 then at == SlotAddress(addr, size, len, FirstSlot(addr, size, len))
            else at == SlotAddress(addr, size, len, 0)
                 || (at < SlotAddress(addr, size, len, 0) && !(len == 1 && FirstSlot(addr, size, len) == 1))
  {
    Window(addr, size, len);
    if k == 0 {
      assert BeatAddress(addr, size, len, 0) == addr;
    } else {
      BeatSlot(IDLE, addr, size, len, k);
      SlotIsAligned(addr, size, len, 0);
      RoundsDown(BeatAddress(addr, size, len, k), Bytes(size));
      if len == 1 && FirstSlot(addr, size, len) == 1 {
        TopSecondBeat(addr, size);
      }
    }
  }

  /** An irregular burst leaves out slot 1 or slot 2. */
  lemma SomeSlotIsMissed(addr: int, size: int, len: int)
    requires Encodable(addr, size, len) && !Regular(addr, size, len)
    ensures !VisitsAll(addr, size, len)
  {
    var first := FirstSlot(addr, size, len);
    var missed := if first == 1 then 2 else 1;
    Window(addr, size, len);
    forall k: nat | k <= len
      ensures !Touches(addr, size, len, k, missed)
    {
      TopTouches(addr, size, len, k);
      SlotsDiffer(Bytes(size), if k == 0 then first else 0, missed);
      NonNegative(Bytes(size), missed);
    }
    assert 0 <= missed <= len && !Visited(addr, size, len, missed);
  }

  lemma SlotsDiffer(nb: int, s: int, j: int)
    requires 1 <= nb
    ensures nb * s == nb * j <==> s == j
  {
    if s < j {
      MulOrder(s, j, nb);
    } else if j < s {
      MulOrder(j, s, nb);
    }
  }

  /** Every beat after the first is where section A3.4.2 puts it. */
  ghost predicate AsSpecified(addr: int, size: int, len: int)
    requires Encodable(addr, size, len)
  {
    forall k: nat :: 1 <= k <= len ==> BeatAddress(addr, size, len, k) == WrapAddress(addr, size, len, k)
  }

  /** The generator meets the specification except in the window at the very top of the address space, whose
      upper boundary wraps around to 0: there only one-beat bursts, and two-beat bursts that start in the
      second slot, come out right. */
  lemma AsSpecifiedExactly(addr: int, size: int, len: int)
    requires Encodable(addr, size, len)
    ensures AsSpecified(addr, size, len) <==> Regular(addr, size, len)
  {
    if Regular(addr, size, len) {
      forall k: nat | 1 <= k <= len
        ensures BeatAddress(addr, size, len, k) == WrapAddress(addr, size, len, k)
      {
        WrapIsSlot(addr, size, len, k);
        if WindowFits(addr, size, len) {
          BeatSlot(IDLE, addr, size, len, k);
        } else {
          TopSecondBeat(addr, size);
        }
      }
    } else if AsSpecified(addr, size, len) {
      SpecifiedVisits(addr, size, len);
      SomeSlotIsMissed(addr, size, len);
      assert false;
    }
  }

  /** A burst that is as specified visits every slot. */
  lemma SpecifiedVisits(addr: int, size: int, len: int)
    requires Encodable(addr, size, len) && AsSpecified(addr, size, len)
    ensures VisitsAll(addr, size, len)
  {
    Window(addr, size, len);
    forall j | 0 <= j <= len
      ensures Visited(addr, size, len, j)
    {
      var k: nat := BeatOf(addr, size, len, j);
      if k == 0 {
        assert BeatAddress(addr, size, len, 0) == addr;
      } else {
        WrapIsSlot(addr, size, len, k);
        SlotIsAligned(addr, size, len, j);
      }
      assert k <= len && Touches(addr, size, len, k, j);
    }
  }

  /** Two beats from the second slot of the window at the top. */
  lemma TopSecondBeat(addr: int, size: int)
    requires Encodable(addr, size, 1) && !WindowFits(addr, size, 1) && FirstSlot(addr, size, 1) == 1
    ensures BeatAddress(addr, size, 1, 1) == SlotAddress(addr, size, 1, 0)
  {
    var t := Begin(IDLE, addr, size, 1);
    Window(addr, size, 1);
    FirstBeats(t);
    TopFacts(t, Bytes(size), 2, 1);
  }

  lemma FirstBeats(t: Txn)
    ensures Beat(t, 1) == Advance(t)
  {
    assert Beat(t, 0) == t;
  }

  lemma TopFacts(t: Txn, nb: int, n: int, j: int)
    requires 1 <= nb <= 128 && 2 <= n <= 256 && j + 1 == n && 0 <= t.lower
    requires t.numberBytes == nb && !t.aligned && t.alignedAddress == t.lower + nb * j
    requires t.alignedAddress + nb <= TWO_32 <= t.lower + nb * n && t.upper == (t.lower + nb * n) % TWO_32
    ensures t.upper == 0 && Advance(t).addr == t.lower
  {
    SizeBound(nb, n);
    Distribute(nb, j, 1);
  }

  /** Four words in the last 16 bytes: the second beat is at the first word again, where the specification goes on
      to the second. */
  lemma TopWindowGoesWrong()
    ensures Encodable(0xffff_fff0, 2, 3) && !Regular(0xffff_fff0, 2, 3)
    ensures BeatAddress(0xffff_fff0, 2, 3, 1) == 0xffff_fff0 && WrapAddress(0xffff_fff0, 2, 3, 1) == 0xffff_fff4
  {
    FirstBeats(Begin(IDLE, 0xffff_fff0, 2, 3));
  }
}
