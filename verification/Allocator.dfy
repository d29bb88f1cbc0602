/** The allocator itself (malloc.c): the HEADER fields, the rover and the break, updated in place. */
module Allocator {
  import opened Common
  import opened FreeList
  import opened Heap

  const HEADER_BYTES: int := 8

  /** Units for nbytes bytes and their header, in unsigned 32-bit arithmetic. */
  function Units(nbytes: nat): int {
    (nbytes + HEADER_BYTES - 1) % TWO_32 / HEADER_BYTES + 1
  }

  /** The block is large enough except for requests so close to 2^32 that rounding up wraps around. */
  lemma UnitsSuffice(nbytes: nat)
    requires nbytes < TWO_32
    ensures 1 <= Units(nbytes)
    ensures nbytes <= HEADER_BYTES * (Units(nbytes) - 1) <==> nbytes <= TWO_32 - HEADER_BYTES
  {
    if nbytes + HEADER_BYTES - 1 >= TWO_32 {
      assert (nbytes + HEADER_BYTES - 1) % TWO_32 == nbytes + HEADER_BYTES - 1 - TWO_32;
    }
  }

  /** n units are a header of 8 bytes and the least whole number of units that holds nbytes bytes; but requests
      within 7 of 2^32 are given the header only. */
  predicate LeastFor(nbytes: nat, n: int) {
    if nbytes <= 0xffff_fff8 then 8 * (n - 2) < nbytes <= 8 * (n - 1) else n == 1
  }

  lemma UnitsAreLeast(nbytes: nat)
    requires nbytes < TWO_32
    ensures LeastFor(nbytes, Units(nbytes))
    ensures forall n :: LeastFor(nbytes, n) ==> n == Units(nbytes)
  {
    UnitsSuffice(nbytes);
  }

  /** Growth is by the least multiple of 128 units that covers the request. */
  lemma RoundUpIsLeast(n: int)
    ensures RoundUp(n) % 128 == 0 && n <= RoundUp(n) < n + 128
  {
    var q := (n + 127) / 128;
    assert RoundUp(n) == 128 * q;
  }

  /** Seven bytes below 2^32, rounding up wraps to zero: one unit, which has no room beside its header. */
  lemma HugeRequestIsOneUnit()
    ensures Units(0xffff_fff9) == 1 && HEADER_BYTES * (Units(0xffff_fff9) - 1) == 0
  {
  }

  lemma DistStep(i: int, j: int, a: int, n: int)
    requires 0 <= i < n && 0 <= j < n && 0 <= a < n
    ensures 0 <= Dist(i, a, n) < n && (Dist(i, a, n) == 0 <==> i == a)
    ensures i != a ==> Dist(Next(i, n), a, n) == Dist(i, a, n) - 1
    ensures Dist(Next(a, n), a, n) == n - 1
    ensures Dist(i, a, n) == Dist(j, a, n) ==> i == j
  {
  }

  // ----- What the calls write -----

  /** The writes of free() for block p. */
  ghost predicate FreeWrites(h: State, p: int, h': State) {
    p in h.live && Joined(h, p, CountBelow(h.ring, p, 0), h')
  }

  /** The writes of morecore() for n units: they join as a block, which is then freed. There is one such
      extension. */
  ghost predicate GrowWrites(h: State, n: int, h': State) {
    forall h1 :: Extension(h, n, h1) ==> FreeWrites(h1, h.membase, h')
  }

  lemma OneExtension(h: State, n: int) returns (h1: State)
    ensures Extension(h, n, h1) && forall h2 :: Extension(h, n, h2) ==> h2 == h1
  {
    h1 := State(h.ptr, h.size[h.membase := n], h.allocp, h.membase + n, h.ring, h.live + {h.membase},
                Extended(h.owner, h.membase, n));
  }

  /** h1 is the heap that malloc() cuts a block of n units from: grown when nothing fits. */
  ghost predicate GrownIfNeeded(h: State, base: int, n: int, h1: State) {
    if Fits(h, n) then h1 == h else GrowWrites(Started(h, base), RoundUp(n), h1)
  }

  /** The writes of malloc() for n units, which gives the block at hd. */
  ghost predicate MallocWrites(h: State, base: int, n: int, hd: int, h': State) {
    exists h1, k: nat :: GrownIfNeeded(h, base, n, h1) && FirstFit(h1, n, k) && Taken(h1, k, n, hd, h')
  }

  /** A block of n units fits, or the heap can grow for it and stay apart from base. */
  ghost predicate Room(h: State, base: int, n: int) {
    Fits(h, n) || h.membase + RoundUp(n) < Limit(base)
  }

  lemma FreeWritesAreStep(h: State, base: int, p: int, h': State)
    requires IsHeap(h, base) && FreeWrites(h, p, h')
    ensures FreeStep(h, base, p, h')
  {
    PlaceFound(h, base, p);
    FreeCorrect(h, base, p, CountBelow(h.ring, p, 0), h');
  }

  lemma GrowthDone(h: State, n: int, h1: State, h': State)
    requires Extension(h, n, h1) && FreeWrites(h1, h.membase, h')
    ensures GrowWrites(h, n, h')
  {
    var h2 := OneExtension(h, n);
    assert h1 == h2;
  }

  lemma GrowWritesAreStep(h: State, base: int, n: int, h': State)
    requires IsHeap(h, base) && h.allocp != 0 && 1 <= n && h.membase + n < Limit(base)
    requires GrowWrites(h, n, h')
    ensures GrowStep(h, base, n, h')
  {
    var h1 := OneExtension(h, n);
    ExtensionIsHeap(h, base, n, h1);
    FreeWritesAreStep(h1, base, h.membase, h');
    GrowIsStep(h, base, n, h1, h');
  }

  lemma GrownIsPrepared(h: State, base: int, n: int, h1: State)
    requires IsHeap(h, base) && 1 <= n && Room(h, base, n) && GrownIfNeeded(h, base, n, h1)
    ensures Prepared(h, base, n, h1) && IsHeap(h1, base) && (h1.ring != [] ==> h1.allocp != 0)
  {
    StartedIsHeap(h, base);
    if !Fits(h, n) {
      GrowWritesAreStep(Started(h, base), base, RoundUp(n), h1);
    }
  }

  /** The writes of malloc() are a malloc step. */
  lemma MallocWritesAreStep(h: State, base: int, n: int, hd: int, h': State)
    requires IsHeap(h, base) && 1 <= n && Room(h, base, n) && MallocWrites(h, base, n, hd, h')
    ensures MallocStep(h, base, n, hd, h')
  {
    var h1, k: nat :| GrownIfNeeded(h, base, n, h1) && FirstFit(h1, n, k) && Taken(h1, k, n, hd, h');
    GrownIsPrepared(h, base, n, h1);
    TakeCorrect(h, h1, base, k, n, hd, h');
  }

  lemma StepHandsOut(h: State, base: int, n: int, hd: int, h': State)
    requires MallocStep(h, base, n, hd, h')
    ensures hd in h'.live && hd in h'.size && h'.size[hd] == n
    ensures h'.membase == h.membase || h'.membase == h.membase + RoundUp(n)
  {
    var h1, k :| Prepared(h, base, n, h1) && FirstFit(h1, n, k) && TakeStep(h1, base, k, n, hd, h');
    PreparedBreak(h, base, n, h1);
  }

  lemma PreparedBreak(h: State, base: int, n: int, h1: State)
    requires Prepared(h, base, n, h1)
    ensures h1.membase == h.membase || h1.membase == h.membase + RoundUp(n)
  {
  }

  lemma GrownBreak(h: State, n: int, h': State)
    requires GrowWrites(h, n, h')
    ensures h'.membase == h.membase + n
  {
    var h1 := OneExtension(h, n);
    assert FreeWrites(h1, h.membase, h');
  }

  class Arena {
    const base: int
    var ptr: map<int, int>
    var size: map<int, int>
    var allocp: int
    var membase: int

    ghost var ring: seq<int>
    ghost var live: set<int>
    ghost var owner: map<int, int>

    ghost function View(): State
      reads this
    {
      State(ptr, size, allocp, membase, ring, live, owner)
    }

    constructor (base: int)
      requires BaseOk(base)
      ensures this.base == base && IsHeap(View(), base)
      ensures allocp == 0 && live == {} && membase == HEAP_START
    {
      this.base := base;
      ptr, size, allocp, membase := map[], map[], 0, HEAP_START;
      ring, live, owner := [], {}, map[];
    }

    method Sbrk(n: int) returns (p: int)
      modifies this`membase
      ensures p == old(membase) && membase == old(membase) + n
    {
      p := membase;
      membase := membase + n;
    }

    method Free(ap: int)
      requires IsHeap(View(), base) && ap - 1 in live
      modifies this
      ensures FreeWrites(old(View()), ap - 1, View()) && FreeStep(old(View()), base, ap - 1, View())
    {
      var p := ap - 1;
      ghost var h := View();
      ghost var k := CountBelow(ring, p, 0);
      PlaceReady(h, base, p, k);
      var q := Search(p, k);
      Join(p, q, k);
      FreeWritesAreStep(h, base, p, View());
    }

    method Malloc(nbytes: nat) returns (ap: int)
      requires nbytes < TWO_32 && IsHeap(View(), base)
      requires Room(View(), base, Units(nbytes))
      modifies this
      ensures MallocWrites(old(View()), base, Units(nbytes), ap - 1, View())
      ensures MallocStep(old(View()), base, Units(nbytes), ap - 1, View())
      ensures ap - 1 in live && ap - 1 in size && LeastFor(nbytes, size[ap - 1])
      ensures membase == old(membase) || membase == old(membase) + RoundUp(size[ap - 1])
    {
      var nunits := Units(nbytes);
      UnitsSuffice(nbytes);
      ghost var h := View();
      StartedIsHeap(h, base);
      if allocp == 0 {
        ptr := ptr[base := base];
        allocp := base;
        size := size[base := 0];
        ring := [base];
      }
      ap := FindAndTake(nunits, h);
      MallocWritesAreStep(h, base, nunits, ap - 1, View());
      UnitsAreLeast(nbytes);
      StepHandsOut(h, base, nunits, ap - 1, View());
    }

    /** malloc() once there is a free list. */
    method FindAndTake(nunits: int, ghost h: State) returns (ap: int)
      requires IsHeap(h, base) && View() == Started(h, base) && IsHeap(View(), base) && allocp != 0 && 1 <= nunits
      requires Room(h, base, nunits)
      modifies this
      ensures MallocWrites(h, base, nunits, ap - 1, View())
    {
      ghost var a, ip := RoverStart(View(), base, nunits);
      var q := allocp;
      var p := ptr[q];
      ghost var h1, k, tests;
      p, q, h1, k, tests := Find(nunits, p, q, h, a, ip);
      ap := Take(p, q, nunits, k);
    }

    /** The loop of malloc(): walk from the rover's successor to a node that is big enough, growing the heap on
        the way when the walk comes back to the rover. `tests` counts the nodes looked at: each at most once
        before the heap grows, and at most once after. */
    method Find(nunits: int, p0: int, q0: int, ghost h: State, ghost a0: int, ghost ip0: int)
      returns (p: int, q: int, ghost h1: State, ghost k: nat, ghost tests: nat)
      requires AtNode(h, View(), base, nunits, a0, ip0, false, 0, p0, q0)
      modifies this
      ensures View() == h1 && GrownIfNeeded(h, base, nunits, h1) && FirstFit(h1, nunits, k) && At(h1, k, p, q)
      ensures 1 <= tests <= |Started(h, base).ring| + if Fits(h, nunits) then 0 else |h1.ring|
    {
      ghost var grown, a, ip := false, a0, ip0;
      p, q, tests := p0, q0, 0;
      while size[p] < nunits
        invariant AtNode(h, View(), base, nunits, a, ip, grown, tests, p, q)
        decreases !grown, Dist(ip, a, |ring|)
      {
        p, q, a, ip, grown := NextNode(h, nunits, p, q, a, ip, grown, tests);
        tests := tests + 1;
      }
      h1, k := View(), ip;
      FoundFirst(h, h1, base, nunits, a, ip, grown, tests);
      tests := tests + 1;
    }

    /** The body of that loop, and its step to the next node. */
    method NextNode(ghost h: State, nunits: int, p0: int, q0: int, ghost a: int, ghost ip: int, ghost grown: bool, ghost tests: nat)
      returns (p: int, q: int, ghost a': int, ghost ip': int, ghost grown': bool)
      requires AtNode(h, View(), base, nunits, a, ip, grown, tests, p0, q0) && size[p0] < nunits
      modifies this
      ensures AtNode(h, View(), base, nunits, a', ip', grown', tests + 1, p, q)
      ensures if grown == grown' then 0 <= Dist(ip', a', |ring|) < Dist(ip, a, old(|ring|)) else grown'
    {
      NotHere(View(), base, nunits, a, ip);
      p, a', ip', grown' := p0, a, ip, grown;
      if p == allocp {
        p, a', ip' := Grow(h, nunits, a, ip, grown, tests);
        grown' := true;
      } else {
        ip' := Next(ip, |ring|);
        DistStep(ip', ip', a, |ring|);
      }
      q := p;
      p := ptr[p];
    }

    /** Back at the rover: the heap grows, and the walk starts again from the rover. */
    method Grow(ghost h: State, nunits: int, ghost a: int, ghost ip: int, ghost grown: bool, ghost tests: nat)
      returns (p: int, ghost a': int, ghost ip': int)
      requires Walking(h, View(), base, nunits, a, ip, grown, tests) && !Fits(View(), nunits) && ip == a
      modifies this
      ensures !grown && p == allocp && p in ptr
      ensures Walking(h, View(), base, nunits, a', ip', true, tests + 1)
      ensures At(View(), ip', ptr[p], p) && (ptr[p] == allocp <==> ip' == a')
    {
      ghost var h0 := View();
      NoneFits(h, h0, base, nunits, a, ip, grown, tests);
      p := Morecore(nunits);
      GrowWritesAreStep(h0, base, RoundUp(nunits), View());
      if p == 0 {
        assert false;
      }
      a', ip' := RoverStart(View(), base, nunits);
      assert |h0.ring| == tests + 1;
    }

    /** morecore(): new units join the heap as a block that is freed at once. */
    method Morecore(nu: int) returns (p: int)
      requires IsHeap(View(), base) && allocp != 0 && 1 <= nu
      requires membase + RoundUp(nu) < Limit(base)
      modifies this
      ensures p == allocp && GrowWrites(old(View()), RoundUp(nu), View())
      ensures membase == old(membase) + RoundUp(nu)
    {
      ghost var h := View();
      var rnu := NALLOC * ((nu + NALLOC - 1) / NALLOC);
      var cp := NewBlock(rnu);
      ghost var h1 := View();
      ExtensionIsHeap(h, base, rnu, h1);
      Free(cp + 1);
      GrowthDone(h, rnu, h1, View());
      GrownBreak(h, rnu, View());
      p := allocp;
    }

    /** The new units and their header. */
    method NewBlock(rnu: int) returns (cp: int)
      modifies this
      ensures cp == old(membase) && Extension(old(View()), rnu, View())
    {
      cp := Sbrk(rnu);
      size := size[cp := rnu];
      owner := Extended(owner, cp, rnu);
      live := live + {cp};
    }

    /** The end of malloc(): cut the block off node p, which follows q. */
    method Take(p: int, q: int, nunits: int, ghost k: nat) returns (ap: int)
      requires k < |ring| && p == ring[k] && q == ring[Prev(k, |ring|)]
      requires p in size && p in ptr && q in ptr && 1 <= nunits <= size[p]
      modifies this
      ensures Taken(old(View()), k, nunits, ap - 1, View())
    {
      var hd := p;
      if size[p] == nunits {
        ptr := ptr[q := ptr[p]];
        ring := ring[..k] + ring[k + 1..];
      } else {
        size := size[p := size[p] - nunits];
        hd := p + size[p];
        size := size[hd := nunits];
        owner := Carved(owner, hd, nunits);
      }
      live := live + {hd};
      allocp := q;
      ap := hd + 1;
    }

    /** The loop of free(): walk from the rover to the node p is to follow. */
    method Search(p: int, ghost k: nat) returns (q: int)
      requires Walkable(ring, ptr, p, k) && allocp in ring
      ensures q == ring[Prev(k, |ring|)]
    {
      ghost var n := |ring|;
      ghost var target := Prev(k, n);
      ghost var iq :| 0 <= iq < n && ring[iq] == allocp;
      q := allocp;
      while !(p > q && p < ptr[q])
        invariant 0 <= iq < n && q == ring[iq]
        decreases Dist(iq, target, n)
      {
        if q >= ptr[q] && (p > q || p < ptr[q]) {
          break;
        }
        DistStep(iq, iq, target, n);
        q := ptr[q];
        iq := Next(iq, n);
      }
    }

    /** The rest of free(): link p in after q, coalescing it with the blocks it touches. */
    method Join(p: int, q: int, ghost k: nat)
      requires AtPlace(View(), p, k, q) && p !in ring && q in ring
      requires ptr[q] in size && ptr[q] in ptr
      requires TestsTouch(View(), p, k, q)
      modifies this
      ensures membase == old(membase)
      ensures Joined(old(View()), p, k, View())
    {
      ghost var h := View();
      var upper := JoinUpper(p, q);
      ghost var h1 := View();
      var lower := JoinLower(p, q);
      ring := NewRing(ring, k, p, lower, upper);
      allocp := q;
      live := live - {p};
      if upper && lower {
        JoinIsBridge(h, p, k, q, h1, View());
      } else if upper {
        JoinIsUpper(h, p, k, q, h1, View());
      } else if lower {
        JoinIsLower(h, p, k, q, h1, View());
      } else {
        JoinIsAlone(h, p, k, q, h1, View());
      }
    }

    /** Coalesce p with the block above it, or link it in front. */
    method JoinUpper(p: int, q: int) returns (upper: bool)
      requires p in size && q in ptr && ptr[q] in size && ptr[q] in ptr
      modifies this`size, this`ptr, this`owner
      ensures upper <==> p + old(size)[p] == old(ptr)[q]
      ensures size == if upper then old(size)[p := old(size)[p] + old(size)[old(ptr)[q]]] else old(size)
      ensures ptr == old(ptr)[p := if upper then old(ptr)[old(ptr)[q]] else old(ptr)[q]]
      ensures owner == if upper then Merged(old(owner), p, old(ptr)[q]) else old(owner)
    {
      ghost var r := ptr[q];
      upper := p + size[p] == ptr[q];
      if upper {
        size := size[p := size[p] + size[ptr[q]]];
        ptr := ptr[p := ptr[ptr[q]]];
        owner := Merged(owner, p, r);
      } else {
        ptr := ptr[p := ptr[q]];
      }
    }

    /** Coalesce with the block below, or link p behind it. */
    method JoinLower(p: int, q: int) returns (lower: bool)
      requires p in size && q in size && p in ptr && q in ptr
      modifies this`size, this`ptr, this`owner
      ensures lower <==> q + old(size)[q] == p
      ensures size == if lower then old(size)[q := old(size)[q] + old(size)[p]] else old(size)
      ensures ptr == old(ptr)[q := if lower then old(ptr)[p] else p]
      ensures owner == if lower then Merged(old(owner), q, p) else old(owner)
    {
      lower := q + size[q] == p;
      if lower {
        size := size[q := size[q] + size[p]];
        ptr := ptr[q := ptr[p]];
        owner := Merged(owner, q, p);
      } else {
        ptr := ptr[q := p];
      }
    }
  }

  /** What the two halves of the join have written: h1 after the first, h' at the end. */
  ghost predicate JoinWrites(h: State, p: int, k: nat, q: int, h1: State, h': State, upper: bool, lower: bool) {
    && AtPlace(h, p, k, q) && p !in h.ring && q in h.ring && h.ptr[q] in h.size && h.ptr[q] in h.ptr
    && TestsTouch(h, p, k, q) && (upper ==> k < |h.ring|)
    && (upper <==> p + h.size[p] == h.ptr[q])
    && h1.size == (if upper then h.size[p := h.size[p] + h.size[h.ptr[q]]] else h.size)
    && h1.ptr == h.ptr[p := if upper then h.ptr[h.ptr[q]] else h.ptr[q]]
    && h1.owner == (if upper then Merged(h.owner, p, h.ptr[q]) else h.owner)
    && (lower <==> q + h1.size[q] == p)
    && h'.size == (if lower then h1.size[q := h1.size[q] + h1.size[p]] else h1.size)
    && h'.ptr == h1.ptr[q := if lower then h1.ptr[p] else p]
    && h'.owner == (if lower then Merged(h1.owner, q, p) else h1.owner)
    && h'.ring == NewRing(h.ring, k, p, lower, upper) && h'.allocp == q
    && h'.live == h.live - {p} && h'.membase == h.membase
  }

  lemma JoinIsBridge(h: State, p: int, k: nat, q: int, h1: State, h': State)
    requires JoinWrites(h, p, k, q, h1, h', true, true)
    ensures Joined(h, p, k, h')
  {
    assert Bridge(h, p, k, h');
  }

  lemma JoinIsUpper(h: State, p: int, k: nat, q: int, h1: State, h': State)
    requires JoinWrites(h, p, k, q, h1, h', true, false)
    ensures Joined(h, p, k, h')
  {
    assert Upper(h, p, k, h');
  }

  lemma JoinIsLower(h: State, p: int, k: nat, q: int, h1: State, h': State)
    requires JoinWrites(h, p, k, q, h1, h', false, true)
    ensures Joined(h, p, k, h')
  {
    assert Lower(h, p, k, h');
  }

  lemma JoinIsAlone(h: State, p: int, k: nat, q: int, h1: State, h': State)
    requires JoinWrites(h, p, k, q, h1, h', false, false)
    ensures Joined(h, p, k, h')
  {
    assert Alone(h, p, k, h');
  }

  /** The nodes in order after block p has joined at place k. */
  function NewRing(ring: seq<int>, k: nat, p: int, lower: bool, upper: bool): seq<int>
    requires k <= |ring| && (upper ==> k < |ring|)
  {
    if lower && upper then ring[..k] + ring[k + 1..]
    else if lower then ring
    else if upper then ring[k := p]
    else ring[..k] + [p] + ring[k..]
  }

  ghost predicate Taken(h: State, k: nat, n: int, hd: int, h': State) {
    if k < |h.ring| && h.ring[k] in h.size && h.size[h.ring[k]] == n
    then hd == h.ring[k] && Whole(h, k, n, h')
    else Tail(h, k, n, hd, h')
  }

  lemma TakeCorrect(h: State, h1: State, base: int, k: nat, n: int, hd: int, h': State)
    requires Prepared(h, base, n, h1) && FirstFit(h1, n, k)
    requires IsHeap(h1, base) && h1.allocp != 0 && 1 <= n && Taken(h1, k, n, hd, h')
    ensures MallocStep(h, base, n, hd, h')
  {
    if h1.size[h1.ring[k]] == n {
      TakeWhole(h1, base, k, n, h');
    } else {
      TakeTail(h1, base, k, n, hd, h');
    }
  }

  /** malloc() is looking at node ip, having found every node before it, counting from the rover, too small. */
  ghost predicate Searching(h: State, base: int, n: int, a: int, ip: int) {
    && IsHeap(h, base) && h.allocp != 0 && 1 <= n
    && 0 <= a < |h.ring| && h.ring[a] == h.allocp && 0 <= ip < |h.ring|
    && SmallBefore(h, n, a, Dist(ip, a, |h.ring|))
  }

  /** h1 is h as the first call prepares it, or grown from there because nothing fitted. */
  ghost predicate GrownOrNot(h: State, base: int, n: int, h1: State, grown: bool) {
    if grown then !Fits(h, n) && h.membase + RoundUp(n) < Limit(base) && GrowWrites(Started(h, base), RoundUp(n), h1)
    else h1 == Started(h, base)
  }

  /** The loop of malloc(): where it is, from which heap, and after how many tests. */
  ghost predicate Walking(h: State, h1: State, base: int, n: int, a: int, ip: int, grown: bool, tests: nat) {
    && IsHeap(h, base) && Room(h, base, n)
    && Searching(h1, base, n, a, ip) && GrownOrNot(h, base, n, h1, grown)
    && tests + Dist(ip, a, |h1.ring|) + 1 == |h1.ring| + if grown then |Started(h, base).ring| else 0
  }

  /** The loop is looking at node p, which follows q. */
  ghost predicate AtNode(h: State, h1: State, base: int, n: int, a: int, ip: int, grown: bool, tests: nat, p: int, q: int) {
    Walking(h, h1, base, n, a, ip, grown, tests) && At(h1, ip, p, q) && (p == h1.allocp <==> ip == a)
  }

  lemma RoverStart(h: State, base: int, n: int) returns (a: int, ip: int)
    requires IsHeap(h, base) && h.allocp != 0 && 1 <= n
    ensures Searching(h, base, n, a, ip)
    ensures h.allocp in h.ptr && At(h, ip, h.ptr[h.allocp], h.allocp)
    ensures h.ptr[h.allocp] == h.allocp <==> ip == a
    ensures Dist(ip, a, |h.ring|) == |h.ring| - 1
  {
    a :| 0 <= a < |h.ring| && h.ring[a] == h.allocp;
    ip := Next(a, |h.ring|);
    forall j | 0 <= j < |h.ring|
      ensures Dist(j, a, |h.ring|) <= Dist(ip, a, |h.ring|)
    {
      DistStep(j, j, a, |h.ring|);
    }
    NodeAt(h, base, a);
  }

  lemma NodeAt(h: State, base: int, i: int)
    requires Linked(h.ring, h.ptr) && Spaced(h.ring, h.size, base, h.membase) && 0 <= i < |h.ring|
    ensures h.ring[i] in h.ptr && At(h, Next(i, |h.ring|), h.ptr[h.ring[i]], h.ring[i])
    ensures forall j :: 0 <= j < |h.ring| && h.ring[j] == h.ptr[h.ring[i]] ==> j == Next(i, |h.ring|)
  {
    LinkAt(h.ring, h.ptr, i);
    SpacedAt(h.ring, h.size, base, h.membase, Next(i, |h.ring|));
  }

  lemma SpacedAt(ring: seq<int>, size: map<int, int>, base: int, membase: int, i: int)
    requires Spaced(ring, size, base, membase) && 0 <= i < |ring|
    ensures ring[i] in size
    ensures forall j :: 0 <= j < |ring| && ring[j] == ring[i] ==> j == i
  {
  }

  /** p is node ip and q the node before it. */
  ghost predicate At(h: State, ip: int, p: int, q: int) {
    && 0 <= ip < |h.ring| && p == h.ring[ip] && q == h.ring[Prev(ip, |h.ring|)]
    && p in h.size && p in h.ptr && q in h.ptr
  }

  /** What the loop has established when it stops at node ip. */
  lemma FoundFirst(h: State, h1: State, base: int, n: int, a: int, ip: int, grown: bool, tests: nat)
    requires Walking(h, h1, base, n, a, ip, grown, tests) && n <= h1.size[h1.ring[ip]]
    ensures GrownIfNeeded(h, base, n, h1) && FirstFit(h1, n, ip)
    ensures tests < |Started(h, base).ring| + if Fits(h, n) then 0 else |h1.ring|
  {
    DistStep(ip, ip, a, |h1.ring|);
    if !grown {
      assert Fits(h1, n);
      assert Fits(h, n);
    }
  }

  lemma NotHere(h: State, base: int, n: int, a: int, ip: int)
    requires Searching(h, base, n, a, ip) && h.ring[ip] in h.size && h.size[h.ring[ip]] < n
    ensures ip != a ==>
              var p, ip' := h.ring[ip], Next(ip, |h.ring|);
              && Searching(h, base, n, a, ip') && Dist(ip', a, |h.ring|) == Dist(ip, a, |h.ring|) - 1
              && p in h.ptr && At(h, ip', h.ptr[p], p) && (h.ptr[p] == h.allocp <==> ip' == a)
    ensures ip == a ==> !Fits(h, n)
  {
    NodeAt(h, base, ip);
    forall j | 0 <= j < |h.ring| && Dist(ip, a, |h.ring|) <= Dist(j, a, |h.ring|)
      ensures h.size[h.ring[j]] < n
    {
      DistStep(ip, j, a, |h.ring|);
    }
    DistStep(ip, ip, a, |h.ring|);
    if ip == a {
      forall j | 0 <= j < |h.ring|
        ensures h.size[h.ring[j]] < n
      {
        DistStep(j, j, a, |h.ring|);
      }
    }
  }

  /** Back at the rover, the heap has not grown yet and no free block was big enough. */
  lemma NoneFits(h: State, h1: State, base: int, n: int, a: int, ip: int, grown: bool, tests: nat)
    requires Walking(h, h1, base, n, a, ip, grown, tests) && !Fits(h1, n)
    ensures !grown && !Fits(h, n) && h1 == Started(h, base) && h.membase + RoundUp(n) < Limit(base)
  {
    if grown {
      StartedIsHeap(h, base);
      GrowWritesAreStep(Started(h, base), base, RoundUp(n), h1);
      GrownFits(Started(h, base), base, n, h1);
      assert false;
    }
  }

  lemma GrownFits(h: State, base: int, n: int, h1: State)
    requires GrowStep(h, base, RoundUp(n), h1)
    ensures Fits(h1, n)
  {
    var b :| b in h1.ring && b in h1.size && b <= h.membase && h.membase + RoundUp(n) <= b + h1.size[b];
    var i :| 0 <= i < |h1.ring| && h1.ring[i] == b;
  }

  /** Where the test of the search loop stops. */
  predicate StopTest(q: int, r: int, p: int) {
    (p > q && p < r) || (q >= r && (p > q || p < r))
  }

  /** The links of the ring, and the only node at which the search for the place of p stops. */
  ghost predicate Walkable(ring: seq<int>, ptr: map<int, int>, p: int, k: nat) {
    && 0 < |ring| && k <= |ring|
    && (forall i {:trigger ring[i]} :: 0 <= i < |ring| ==> ring[i] in ptr)
    && (forall i {:trigger ptr[ring[i]]} :: 0 <= i < |ring| ==>
          && ptr[ring[i]] == ring[Next(i, |ring|)]
          && (StopTest(ring[i], ptr[ring[i]], p) <==> i == Prev(k, |ring|)))
  }

  /** The two tests of free() find exactly the neighbours that p touches; node k is then after q. */
  ghost predicate TestsTouch(h: State, p: int, k: nat, q: int)
    requires k <= |h.ring| && p in h.size && q in h.ptr && q in h.size
    requires forall i :: 0 <= i < |h.ring| ==> h.ring[i] in h.size
  {
    && (p + h.size[p] == h.ptr[q] <==> TouchesUpper(h.ring, h.size, k, p))
    && (p + h.size[p] == h.ptr[q] ==> h.ptr[q] == h.ring[k] && h.ptr[q] != q)
    && (q + h.size[q] == p <==> TouchesLower(h.ring, h.size, k, p))
  }

  lemma PlaceReady(h: State, base: int, p: int, k: nat)
    requires IsHeap(h, base) && p in h.live && k == CountBelow(h.ring, p, 0)
    ensures Placed(h, base, p, k)
    ensures Walkable(h.ring, h.ptr, p, k) && h.allocp in h.ring && p !in h.ring
    ensures var q := h.ring[Prev(k, |h.ring|)];
            AtPlace(h, p, k, q) && h.ptr[q] in h.size && h.ptr[q] in h.ptr && TestsTouch(h, p, k, q)
  {
    PlaceFound(h, base, p);
    PlacedIsReady(h, base, p, k);
    ReadyWalk(h, base, p, k);
    ReadyTests(h, base, p, k);
  }

  lemma Ascends(h: State, base: int, i: int)
    requires Spaced(h.ring, h.size, base, h.membase) && 0 <= i < |h.ring|
    ensures h.ring[i] in h.size && 0 <= h.size[h.ring[i]]
    ensures i + 1 < |h.ring| ==> h.ring[i] < h.ring[i + 1]
    ensures i + 1 == |h.ring| ==> h.ring[0] <= h.ring[i]
  {
    if i + 1 < |h.ring| {
      assert h.ring[i] + h.size[h.ring[i]] < h.ring[i + 1];
    } else if i > 0 {
      assert h.ring[0] + h.size[h.ring[0]] < h.ring[i];
    }
  }

  /** The search of free() stops exactly at the node before place k. */
  lemma ReadyWalk(h: State, base: int, p: int, k: nat)
    requires Ready(h, base, p, k)
    requires forall i :: 0 <= i < k ==> h.ring[i] < p
    requires forall i :: k <= i < |h.ring| ==> p < h.ring[i]
    ensures Walkable(h.ring, h.ptr, p, k)
  {
    var n := |h.ring|;
    forall i | 0 <= i < n
      ensures h.ptr[h.ring[i]] == h.ring[Next(i, n)]
      ensures StopTest(h.ring[i], h.ptr[h.ring[i]], p) <==> i == Prev(k, n)
    {
      Ascends(h, base, i);
    }
  }

  lemma ReadyTests(h: State, base: int, p: int, k: nat)
    requires Ready(h, base, p, k)
    requires forall i :: 0 <= i < k ==> h.ring[i] < p
    requires forall i :: k <= i < |h.ring| ==> p < h.ring[i]
    ensures var q := h.ring[Prev(k, |h.ring|)];
            AtPlace(h, p, k, q) && h.ptr[q] in h.size && h.ptr[q] in h.ptr && TestsTouch(h, p, k, q)
  {
    var n := |h.ring|;
    LinkAt(h.ring, h.ptr, Prev(k, n));
    UpperTest(h.ring, h.size, base, h.membase, p, k);
    LowerTest(h.ring, h.size, base, h.membase, p, k);
  }

  /** Where the node after place k starts, when it is not simply ring[k]. */
  lemma UpperTest(ring: seq<int>, size: map<int, int>, base: int, membase: int, p: int, k: nat)
    requires Spaced(ring, size, base, membase) && Between(ring, size, membase, k, p) && base in ring && 0 < |ring|
    requires forall i :: 0 <= i < k ==> ring[i] < p
    requires TouchesUpper(ring, size, k, p) ==> ring[k] != base
    ensures var r := ring[Next(Prev(k, |ring|), |ring|)];
            && (p + size[p] == r <==> TouchesUpper(ring, size, k, p))
            && (p + size[p] == r ==> r == ring[k] && r != ring[Prev(k, |ring|)])
  {
    if TouchesUpper(ring, size, k, p) {
      var b :| 0 <= b < |ring| && ring[b] == base;
      assert b != k;
      SpacedAt(ring, size, base, membase, k);
    }
  }

  lemma LowerTest(ring: seq<int>, size: map<int, int>, base: int, membase: int, p: int, k: nat)
    requires Spaced(ring, size, base, membase) && Between(ring, size, membase, k, p) && 0 < |ring|
    requires forall i :: k <= i < |ring| ==> p < ring[i]
    ensures var q := ring[Prev(k, |ring|)];
            q in size && (q + size[q] == p <==> TouchesLower(ring, size, k, p))
  {
  }

  lemma AscendsTo(ring: seq<int>, size: map<int, int>, base: int, membase: int, k: nat, i: nat)
    requires Spaced(ring, size, base, membase) && k <= i < |ring|
    ensures ring[k] <= ring[i]
  {
    assert k < i ==> ring[k] + size[ring[k]] < ring[i];
  }

  lemma PlaceFound(h: State, base: int, p: int)
    requires IsHeap(h, base) && p in h.live
    ensures Placed(h, base, p, CountBelow(h.ring, p, 0))
  {
    var k := CountBelow(h.ring, p, 0);
    forall i | k <= i < |h.ring|
      ensures p < h.ring[i]
    {
      NodesApart(h, base, p, h.ring[i]);
      AscendsTo(h.ring, h.size, base, h.membase, k, i);
    }
  }
}
