/** What the allocator promises over whole runs of malloc and free. */
module HeapTheorems {
  import opened Common
  import opened FreeList
  import opened Heap
  import opened Allocator

  // ----- The cycle -----

  /** The node k links after x. */
  function Follow(ptr: map<int, int>, x: int, k: nat): int
    decreases k
  {
    if k == 0 || x !in ptr then x else Follow(ptr, ptr[x], k - 1)
  }

  /** Index of the node k links after node i, for k at most once round. */
  function Ahead(i: int, k: int, n: int): int {
    if k == n then i else if i + k < n then i + k else i + k - n
  }

  lemma {:induction false} FollowRing(ring: seq<int>, ptr: map<int, int>, i: nat, k: nat)
    requires Linked(ring, ptr) && i < |ring| && k <= |ring|
    ensures Follow(ptr, ring[i], k) == ring[Ahead(i, k, |ring|)]
    decreases k
  {
    if k > 0 {
      var n := |ring|;
      assert ptr[ring[i]] == ring[Next(i, n)];
      FollowRing(ring, ptr, Next(i, n), k - 1);
    }
  }

  /** Fewer than n links lead from x to y. */
  ghost predicate Reaches(ptr: map<int, int>, x: int, n: nat, y: int) {
    exists k: nat :: k < n && Follow(ptr, x, k) == y
  }

  /** From the rover, the ptr fields lead once through every node and back; base is among them; the
      addresses ascend at every link but one. */
  lemma FreeListIsOneCycle(h: State, base: int)
    requires IsHeap(h, base) && h.allocp != 0
    ensures var n := |h.ring|;
            && Follow(h.ptr, h.allocp, n) == h.allocp
            && (forall k :: 0 < k < n ==> Follow(h.ptr, h.allocp, k) != h.allocp)
            && (forall x :: x in h.ring <==> Reaches(h.ptr, h.allocp, n, x))
            && base in h.ring
    ensures exists w :: 0 <= w < |h.ring| && OnlyWrap(h, |h.ring|, w)
  {
    var a :| 0 <= a < |h.ring| && h.ring[a] == h.allocp;
    SpacedIsDistinct(h.ring, h.size, base, h.membase);
    CycleFrom(h.ring, h.ptr, a);
    WrapOnce(h, base, a);
    var w := |h.ring| - 1 - a;
    assert 0 <= w < |h.ring| && OnlyWrap(h, |h.ring|, w);
  }

  lemma CycleFrom(ring: seq<int>, ptr: map<int, int>, a: nat)
    requires Linked(ring, ptr) && Distinct(ring) && a < |ring|
    ensures Follow(ptr, ring[a], |ring|) == ring[a]
    ensures forall k :: 0 < k < |ring| ==> Follow(ptr, ring[a], k) != ring[a]
    ensures forall x :: x in ring <==> Reaches(ptr, ring[a], |ring|, x)
  {
    var n := |ring|;
    FollowRing(ring, ptr, a, n);
    forall k | 0 < k < n
      ensures Follow(ptr, ring[a], k) != ring[a]
    {
      FollowRing(ring, ptr, a, k);
    }
    forall x
      ensures x in ring <==> Reaches(ptr, ring[a], n, x)
    {
      if x in ring {
        Reached(ring, ptr, a, x);
      }
      if Reaches(ptr, ring[a], n, x) {
        var k: nat :| k < n && Follow(ptr, ring[a], k) == x;
        FollowRing(ring, ptr, a, k);
      }
    }
  }

  lemma Reached(ring: seq<int>, ptr: map<int, int>, a: nat, x: int)
    requires Linked(ring, ptr) && a < |ring| && x in ring
    ensures Reaches(ptr, ring[a], |ring|, x)
  {
    var i :| 0 <= i < |ring| && ring[i] == x;
    var k := if a <= i then i - a else i - a + |ring|;
    assert Ahead(a, k, |ring|) == i;
    FollowRing(ring, ptr, a, k);
    assert Follow(ptr, ring[a], k) == x;
  }

  /** Link w, counted from the rover, is the one that does not ascend. */
  ghost predicate OnlyWrap(h: State, n: nat, w: nat) {
    forall k :: 0 <= k < n ==>
      (Follow(h.ptr, h.allocp, k) < Follow(h.ptr, h.allocp, k + 1) <==> k != w)
  }

  lemma WrapOnce(h: State, base: int, a: nat)
    requires Linked(h.ring, h.ptr) && Spaced(h.ring, h.size, base, h.membase)
    requires a < |h.ring| && h.ring[a] == h.allocp
    ensures OnlyWrap(h, |h.ring|, |h.ring| - 1 - a)
  {
    Ascending(h.ring, h.size, base, h.membase);
    OneLap(h.ring, h.ptr, a);
    forall k | 0 <= k < |h.ring|
      ensures Follow(h.ptr, h.allocp, k) < Follow(h.ptr, h.allocp, k + 1) <==> k != |h.ring| - 1 - a
    {
      LinkAscends(h.ring, h.ptr, a, k);
    }
  }

  /** Once round from node a, link by link. */
  ghost predicate Lap(ring: seq<int>, ptr: map<int, int>, a: nat)
    requires a < |ring|
  {
    forall k :: 0 <= k <= |ring| ==> Follow(ptr, ring[a], k) == ring[Ahead(a, k, |ring|)]
  }

  lemma OneLap(ring: seq<int>, ptr: map<int, int>, a: nat)
    requires Linked(ring, ptr) && a < |ring|
    ensures Lap(ring, ptr, a)
  {
    forall k | 0 <= k <= |ring|
      ensures Follow(ptr, ring[a], k) == ring[Ahead(a, k, |ring|)]
    {
      FollowRing(ring, ptr, a, k);
    }
  }

  lemma LinkAscends(ring: seq<int>, ptr: map<int, int>, a: nat, k: nat)
    requires Sorted(ring) && a < |ring| && k < |ring| && Lap(ring, ptr, a)
    ensures Follow(ptr, ring[a], k) < Follow(ptr, ring[a], k + 1) <==> k != |ring| - 1 - a
  {
    var i, j := Ahead(a, k, |ring|), Ahead(a, k + 1, |ring|);
    assert if k == |ring| - 1 - a then j <= i else j == i + 1;
  }

  ghost predicate Sorted(ring: seq<int>) {
    forall i, j :: 0 <= i < j < |ring| ==> ring[i] < ring[j]
  }

  lemma Ascending(ring: seq<int>, size: map<int, int>, base: int, membase: int)
    requires Spaced(ring, size, base, membase)
    ensures Sorted(ring)
  {
    forall i, j | 0 <= i < j < |ring|
      ensures ring[i] < ring[j]
    {
      assert ring[i] in size && 0 <= size[ring[i]];
    }
  }

  // ----- One malloc -----

  /** The n units from hd were free or are new; they and only they cease to be. */
  ghost predicate HandedOut(h: State, hd: int, n: int, h': State) {
    && (forall u :: hd <= u < hd + n ==> FreeUnit(h, u) || h.membase <= u < h'.membase)
    && (forall u :: FreeUnit(h', u) <==>
                      (FreeUnit(h, u) || h.membase <= u < h'.membase) && !(hd <= u < hd + n))
  }

  /** malloc() returns n units that nobody held, disjoint from every live block, and changes no other block's
      units; they are the last of a run of free units; the heap grows exactly when no free block is big enough. */
  lemma MallocEffect(h: State, base: int, n: int, hd: int, h': State)
    requires IsHeap(h, base) && 1 <= n && MallocStep(h, base, n, hd, h')
    ensures IsHeap(h', base) && h'.allocp != 0
    ensures hd !in h.live && h'.live == h.live + {hd} && h'.size[hd] == n && Keeps(h, h', h.live)
    ensures h'.membase == if Fits(h, n) then h.membase else h.membase + RoundUp(n)
    ensures HandedOut(h, hd, n, h') && !FreeUnit(h', hd + n)
    ensures forall b :: b in h.live ==> b in h.size && (b + h.size[b] <= hd || hd + n <= b)
  {
    var h1, k :| Prepared(h, base, n, h1) && FirstFit(h1, n, k) && TakeStep(h1, base, k, n, hd, h');
    PreparedKeeps(h, base, n, h1);
    TakenFromGrown(h, h1, hd, n, h');
    PreparedIsHeap(h, base, n, h1, k);
    TakenAtTheTop(h1, base, k, n, hd, h');
    forall b | b in h.live
      ensures b in h.size && (b + h.size[b] <= hd || hd + n <= b)
    {
      LiveDisjoint(h', base, b, hd);
    }
  }

  /** The heap from which malloc() takes a block: grown or not, it has the same live blocks. */
  lemma PreparedKeeps(h: State, base: int, n: int, h1: State)
    requires IsHeap(h, base) && Prepared(h, base, n, h1)
    ensures h1.live == h.live && Keeps(h, h1, h.live)
    ensures h1.membase == if Fits(h, n) then h.membase else h.membase + RoundUp(n)
    ensures Released(h, h1, h.membase, h1.membase - h.membase)
  {
    if Fits(h, n) {
      LiveKept(h, base, h);
    } else {
      StartedIsHeap(h, base);
    }
  }

  lemma PreparedIsHeap(h: State, base: int, n: int, h1: State, k: int)
    requires IsHeap(h, base) && Prepared(h, base, n, h1) && FirstFit(h1, n, k)
    ensures IsHeap(h1, base) && h1.allocp != 0
  {
  }

  lemma TakenAtTheTop(h1: State, base: int, k: nat, n: int, hd: int, h': State)
    requires 1 <= n && FirstFit(h1, n, k) && TakeStep(h1, base, k, n, hd, h') && IsHeap(h1, base) && h1.allocp != 0
    ensures !FreeUnit(h', hd + n)
  {
    FitIsBlock(h1, base, k, n);
    AboveNode(h1, base, h1.ring[k]);
  }

  lemma FitIsBlock(h: State, base: int, k: nat, n: int)
    requires IsHeap(h, base) && h.allocp != 0 && 1 <= n
    requires k < |h.ring| && h.ring[k] in h.size && n <= h.size[h.ring[k]]
    ensures h.ring[k] in Nodes(h.ring) - {base}
  {
    HeapIsChosen(h, base, k, n);
  }

  lemma TakenFromGrown(h: State, h1: State, hd: int, n: int, h': State)
    requires Released(h, h1, h.membase, h1.membase - h.membase) && UnitsTaken(h1, hd, n, h')
    requires h'.membase == h1.membase
    ensures HandedOut(h, hd, n, h')
  {
  }

  lemma LiveDisjoint(h: State, base: int, a: int, b: int)
    requires IsHeap(h, base) && a in h.live && b in h.live && a != b
    ensures a in h.size && b in h.size && (a + h.size[a] <= b || b + h.size[b] <= a)
  {
    var blocks := Blocks(h, base);
    assert a in blocks && b in blocks;
    if a < b {
      BlocksDisjoint(h.owner, h.size, blocks, h.membase, a, b);
    } else {
      BlocksDisjoint(h.owner, h.size, blocks, h.membase, b, a);
    }
  }

  // ----- The free list is determined by the free units -----

  ghost predicate SameFree(h: State, h': State) {
    forall u :: FreeUnit(h, u) <==> FreeUnit(h', u)
  }

  /** A free block starts exactly at a free unit whose lower neighbour is not free: the list is maximally coalesced. */
  lemma NodeIsRunStart(h: State, base: int, b: int)
    requires IsHeap(h, base)
    ensures b in Nodes(h.ring) - {base} <==> FreeUnit(h, b) && !FreeUnit(h, b - 1)
  {
    if b in Nodes(h.ring) - {base} {
      OwnUnits(h, base, b);
      BelowNode(h, base, b);
    } else if FreeUnit(h, b) {
      InsideNode(h, base, b);
    }
  }

  lemma InsideNode(h: State, base: int, b: int)
    requires Parted(h, base) && FreeUnit(h, b) && b !in Nodes(h.ring) - {base}
    ensures FreeUnit(h, b - 1)
  {
    var c := h.owner[b];
    assert c in Blocks(h, base) && c in Nodes(h.ring) - {base} && c < b;
    OwnUnits(h, base, c);
  }

  /** The units of a free block are free. */
  lemma OwnUnits(h: State, base: int, c: int)
    requires Parted(h, base) && c in Nodes(h.ring) - {base}
    ensures c in h.size && 1 <= h.size[c]
    ensures forall u :: c <= u < c + h.size[c] ==> FreeUnit(h, u)
  {
    assert c in Blocks(h, base);
    UnitsOf(h, base, c);
  }

  /** Two nodes never touch. */
  lemma NodesDoNotTouch(h: State, base: int, c: int, b: int)
    requires IsHeap(h, base) && c in h.ring && b in h.ring
    ensures c in h.size && (c + h.size[c] != b || c == b)
  {
    var i :| 0 <= i < |h.ring| && h.ring[i] == c;
    var j :| 0 <= j < |h.ring| && h.ring[j] == b;
    if i < j {
      assert h.ring[i] + h.size[h.ring[i]] < h.ring[j];
    } else if j < i {
      assert h.ring[j] + h.size[h.ring[j]] < h.ring[i];
    }
  }

  /** A free unit just below or just past block b lies in a free block that touches b. */
  lemma FreeNeighbour(h: State, base: int, b: int, u: int)
    requires Parted(h, base) && b in Blocks(h, base) && FreeUnit(h, u)
    requires u == b - 1 || u == b + h.size[b]
    ensures var c := h.owner[u]; c in h.ring && c != b && c in h.size && (if u < b then c + h.size[c] == b else c == u)
  {
    var c := h.owner[u];
    assert c in Blocks(h, base);
    if c < b {
      BlocksDisjoint(h.owner, h.size, Blocks(h, base), h.membase, c, b);
    } else if b < c {
      BlocksDisjoint(h.owner, h.size, Blocks(h, base), h.membase, b, c);
    }
  }

  lemma BelowNode(h: State, base: int, b: int)
    requires IsHeap(h, base) && b in Nodes(h.ring) - {base}
    ensures !FreeUnit(h, b - 1)
  {
    if FreeUnit(h, b - 1) {
      var c := h.owner[b - 1];
      FreeNeighbour(h, base, b, b - 1);
      NodesDoNotTouch(h, base, c, b);
      assert false;
    }
  }

  /** The unit just past a free block is not free. */
  lemma AboveNode(h: State, base: int, b: int)
    requires IsHeap(h, base) && b in Nodes(h.ring) - {base}
    ensures b in h.size && !FreeUnit(h, b + h.size[b])
  {
    assert b in Blocks(h, base);
    if FreeUnit(h, b + h.size[b]) {
      var u := b + h.size[b];
      FreeNeighbour(h, base, b, u);
      NodesDoNotTouch(h, base, b, u);
      assert false;
    }
  }

  lemma TailMembers(r: seq<int>)
    requires Sorted(r) && r != []
    ensures forall x :: x in r[1..] <==> x in r && x != r[0]
  {
    forall x | x in r && x != r[0]
      ensures x in r[1..]
    {
      var i :| 0 <= i < |r| && r[i] == x;
      assert r[1..][i - 1] == x;
    }
    forall x | x in r[1..]
      ensures x in r && x != r[0]
    {
      var i :| 0 <= i < |r[1..]| && r[1..][i] == x;
      assert r[i + 1] == x;
    }
  }

  /** An ascending sequence is determined by its members. */
  lemma {:induction false} SortedUnique(r: seq<int>, s: seq<int>)
    requires Sorted(r) && Sorted(s)
    requires forall x :: x in r <==> x in s
    ensures r == s
  {
    if r != [] && s != [] {
      assert r[0] in s && s[0] in r;
      assert r[0] == s[0];
      TailMembers(r);
      TailMembers(s);
      SortedUnique(r[1..], s[1..]);
      assert r == [r[0]] + r[1..] && s == [s[0]] + s[1..];
    } else {
      if r == [] {
        NoMembers(r, s);
      } else {
        NoMembers(s, r);
      }
    }
  }

  lemma NoMembers(r: seq<int>, s: seq<int>)
    requires r == [] && forall x :: x in s ==> x in r
    ensures s == []
  {
    if s != [] {
      HeadIn(s);
      assert false;
    }
  }

  /** Heaps with the same free units have the same free list, block for block. */
  lemma FreeListIsCanonical(h: State, h': State, base: int)
    requires IsHeap(h, base) && IsHeap(h', base) && h.allocp != 0 && h'.allocp != 0
    requires SameFree(h, h')
    ensures h.ring == h'.ring
    ensures forall b :: b in h.ring ==> b in h.size && b in h'.size && h.size[b] == h'.size[b]
  {
    forall b
      ensures b in h.ring <==> b in h'.ring
    {
      NodeIsRunStart(h, base, b);
      NodeIsRunStart(h', base, b);
      assert b in Nodes(h.ring) <==> b in h.ring;
      assert b in Nodes(h'.ring) <==> b in h'.ring;
    }
    Ascending(h.ring, h.size, base, h.membase);
    Ascending(h'.ring, h'.size, base, h'.membase);
    SortedUnique(h.ring, h'.ring);
    forall b | b in h.ring
      ensures b in h.size && b in h'.size && h.size[b] == h'.size[b]
    {
      SameRun(h, h', base, b);
    }
  }

  /** The n units from b are a maximal run of free units. */
  ghost predicate FreeRun(h: State, b: int, n: int) {
    && 1 <= n && !FreeUnit(h, b + n)
    && (forall u :: b <= u < b + n ==> FreeUnit(h, u))
  }

  lemma BlockIsRun(h: State, base: int, b: int)
    requires IsHeap(h, base) && b in h.ring
    ensures b in h.size && (if b == base then h.size[b] == 0 else FreeRun(h, b, h.size[b]))
  {
    if b != base {
      assert b in Nodes(h.ring) - {base};
      AboveNode(h, base, b);
      OwnUnits(h, base, b);
    }
  }

  lemma SameRun(h: State, h': State, base: int, b: int)
    requires IsHeap(h, base) && IsHeap(h', base) && b in h.ring && b in h'.ring
    requires SameFree(h, h')
    ensures b in h.size && b in h'.size && h.size[b] == h'.size[b]
  {
    BlockIsRun(h, base, b);
    BlockIsRun(h', base, b);
    if b != base {
      SameLength(h, h', b, h.size[b], h'.size[b]);
    }
  }

  lemma SameLength(h: State, h': State, b: int, n: int, n': int)
    requires SameFree(h, h') && FreeRun(h, b, n) && FreeRun(h', b, n')
    ensures n == n'
  {
    assert !FreeUnit(h', b + n) && !FreeUnit(h, b + n');
  }

  /** free() undoes malloc(): when the heap did not have to grow, freeing the new block at once gives back the
      same free list with the same sizes, and the same live blocks. */
  lemma FreeUndoesMalloc(h: State, base: int, n: int, hd: int, h1: State, h2: State)
    requires IsHeap(h, base) && 1 <= n && Fits(h, n)
    requires MallocWrites(h, base, n, hd, h1) && FreeWrites(h1, hd, h2)
    ensures h2.live == h.live && Keeps(h, h2, h.live) && h2.membase == h.membase
    ensures h2.ring == h.ring
    ensures forall b :: b in h.ring ==> b in h.size && b in h2.size && h2.size[b] == h.size[b]
  {
    MallocWritesAreStep(h, base, n, hd, h1);
    MallocEffect(h, base, n, hd, h1);
    FreeWritesAreStep(h1, base, hd, h2);
    GivenBack(h, hd, n, h1, h2);
    FreeListIsCanonical(h, h2, base);
    LiveBack(h, hd, h1, h2);
  }

  lemma LiveBack(h: State, hd: int, h1: State, h2: State)
    requires hd !in h.live && h1.live == h.live + {hd} && h2.live == h1.live - {hd}
    requires Keeps(h, h1, h.live) && Keeps(h1, h2, h2.live)
    ensures h2.live == h.live && Keeps(h, h2, h.live)
  {
  }

  lemma GivenBack(h: State, hd: int, n: int, h1: State, h2: State)
    requires HandedOut(h, hd, n, h1) && h1.membase == h.membase && Released(h1, h2, hd, n)
    ensures SameFree(h, h2)
  {
  }

  // ----- Conservation -----

  /** The units that the blocks of `listing` hold. */
  ghost function HeldBy(h: State, listing: seq<int>): set<int> {
    set u | u in h.owner && h.owner[u] in listing
  }

  function Total(size: map<int, int>, listing: seq<int>): int
    requires forall b :: b in listing ==> b in size
  {
    if listing == [] then 0
    else
      var b := listing[0];
      assert b in listing;
      size[b] + Total(size, listing[1..])
  }

  ghost function Interval(lo: int, n: nat): set<int>
    ensures forall u :: u in Interval(lo, n) <==> lo <= u < lo + n
    ensures |Interval(lo, n)| == n
  {
    if n == 0 then {} else Interval(lo, n - 1) + {lo + n - 1}
  }

  lemma {:induction false} HeldUnits(h: State, base: int, listing: seq<int>)
    requires Parted(h, base)
    requires forall i, j :: 0 <= i < j < |listing| ==> listing[i] != listing[j]
    requires forall b :: b in listing ==> b in Blocks(h, base)
    ensures forall b :: b in listing ==> b in h.size
    ensures |HeldBy(h, listing)| == Total(h.size, listing)
  {
    if listing == [] {
      assert HeldBy(h, listing) == {};
    } else {
      var b, rest := listing[0], listing[1..];
      assert b in listing && forall x :: x in rest ==> x in listing;
      HeldUnits(h, base, rest);
      UnitsOf(h, base, b);
      assert listing == [b] + rest;
      HeldSplit(h, b, h.size[b], listing, rest);
    }
  }

  lemma HeldSplit(h: State, b: int, n: nat, listing: seq<int>, rest: seq<int>)
    requires forall u :: b <= u < b + n <==> u in h.owner && h.owner[u] == b
    requires listing == [b] + rest && b !in rest
    ensures |HeldBy(h, listing)| == n + |HeldBy(h, rest)|
  {
    var own := Interval(b, n);
    assert HeldBy(h, listing) == own + HeldBy(h, rest);
    assert own !! HeldBy(h, rest);
  }

  /** However the free and live blocks are listed, their sizes add up to all the units obtained from sbrk(). */
  lemma UnitsAreConserved(h: State, base: int, listing: seq<int>)
    requires IsHeap(h, base)
    requires forall i, j :: 0 <= i < j < |listing| ==> listing[i] != listing[j]
    requires forall b :: b in listing <==> (b in h.ring && b != base) || b in h.live
    ensures forall b :: b in listing ==> b in h.size
    ensures Total(h.size, listing) == h.membase - HEAP_START
  {
    HeldUnits(h, base, listing);
    AllHeld(h, base, listing);
  }

  lemma AllHeld(h: State, base: int, listing: seq<int>)
    requires Tiled(h.owner, h.size, Blocks(h, base), h.membase)
    requires forall b :: b in Blocks(h, base) ==> b in listing
    ensures |HeldBy(h, listing)| == h.membase - HEAP_START
  {
    assert HeldBy(h, listing) == Interval(HEAP_START, h.membase - HEAP_START);
  }

  // ----- The rover -----

  /** After a malloc() that left some of the free block it cut from, the next search begins with what is left. */
  lemma SearchResumes(h: State, base: int, n: int, hd: int, h': State)
    requires IsHeap(h, base) && 1 <= n && Room(h, base, n) && MallocWrites(h, base, n, hd, h')
    requires FreeUnit(h', hd - 1)
    ensures h'.allocp in h'.ptr
    ensures var p := h'.ptr[h'.allocp]; p in h'.ring && p != base && p in h'.size && p + h'.size[p] == hd
  {
    var h1, k: nat :| GrownIfNeeded(h, base, n, h1) && FirstFit(h1, n, k) && Taken(h1, k, n, hd, h');
    GrownIsPrepared(h, base, n, h1);
    PreparedIsHeap(h, base, n, h1, k);
    FitIsBlock(h1, base, k, n);
    LeftOver(h1, base, k, n, hd, h');
  }

  lemma LeftOver(h1: State, base: int, k: nat, n: int, hd: int, h': State)
    requires IsHeap(h1, base) && h1.allocp != 0 && 1 <= n && k < |h1.ring| && h1.ring[k] in h1.size && n <= h1.size[h1.ring[k]]
    requires h1.ring[k] != base && Taken(h1, k, n, hd, h') && FreeUnit(h', hd - 1)
    ensures h'.allocp in h'.ptr
    ensures var p := h'.ptr[h'.allocp]; p in h'.ring && p != base && p in h'.size && p + h'.size[p] == hd
  {
    if h1.size[h1.ring[k]] == n {
      BelowTaken(h1, base, k, n, h');
      assert false;
    } else {
      RestIsNext(h1, base, k, n, hd, h');
    }
  }

  lemma RestIsNext(h1: State, base: int, k: nat, n: int, hd: int, h': State)
    requires IsHeap(h1, base) && k < |h1.ring| && h1.ring[k] != base && Tail(h1, k, n, hd, h')
    ensures h'.allocp in h'.ptr
    ensures var p := h'.ptr[h'.allocp]; p in h'.ring && p != base && p in h'.size && p + h'.size[p] == hd
  {
    LinkAt(h1.ring, h1.ptr, Prev(k, |h1.ring|));
    NextOfPrev(k, |h1.ring|);
  }

  lemma NextOfPrev(k: int, n: int)
    requires 0 <= k < n
    ensures 0 <= Prev(k, n) < n && Next(Prev(k, n), n) == k
  {
  }

  lemma BelowTaken(h1: State, base: int, k: nat, n: int, h': State)
    requires IsHeap(h1, base) && h1.allocp != 0 && 1 <= n && Whole(h1, k, n, h')
    ensures !FreeUnit(h', h1.ring[k] - 1)
  {
    FitIsBlock(h1, base, k, n);
    BelowNode(h1, base, h1.ring[k]);
    TakeWhole(h1, base, k, n, h');
  }

  /** After a free() the next search begins with the block freed, or right after the free block that took it in. */
  lemma SearchResumesAfterFree(h: State, p: int, h': State)
    requires FreeWrites(h, p, h')
    ensures h'.allocp in h'.ptr && h'.allocp in h.size && p in h.size
    ensures h'.ptr[h'.allocp] == p || h'.allocp + h.size[h'.allocp] == p
  {
    var k := CountBelow(h.ring, p, 0);
    if TouchesLower(h.ring, h.size, k, p) {
      assert h'.allocp == h.ring[k - 1];
    }
  }

  // ----- Growing where there is no room -----

  /** The extended heap is a heap exactly when it stays below its limit. */
  lemma RoomExactly(h: State, base: int, n: int, h1: State)
    requires IsHeap(h, base) && h.allocp != 0 && 1 <= n && Extension(h, n, h1)
    ensures IsHeap(h1, base) <==> h.membase + n < Limit(base)
  {
    if h.membase + n < Limit(base) {
      ExtensionIsHeap(h, base, n, h1);
    }
  }

  /** So a malloc() leaves a heap exactly when there was room for it. */
  lemma MallocNeedsRoom(h: State, base: int, n: int, hd: int, h': State)
    requires IsHeap(h, base) && 1 <= n && MallocWrites(h, base, n, hd, h')
    ensures IsHeap(h', base) <==> Room(h, base, n)
  {
    if Room(h, base, n) {
      MallocWritesAreStep(h, base, n, hd, h');
      MallocEffect(h, base, n, hd, h');
    } else {
      var h1, k: nat :| GrownIfNeeded(h, base, n, h1) && FirstFit(h1, n, k) && Taken(h1, k, n, hd, h');
      GrownBreak(Started(h, base), RoundUp(n), h1);
      assert h'.membase == h1.membase;
    }
  }

  /** What goes wrong beyond: a heap that grows right up to base swallows it. base is no node any more, and its
      header lies inside a free block that malloc() may hand out. */
  lemma GrowthSwallowsBase(h: State, base: int, n: int, h': State)
    requires IsHeap(h, base) && h.allocp != 0 && 1 <= n && h.membase + n == base
    requires GrowWrites(h, n, h')
    ensures base !in h'.ring && !IsHeap(h', base)
  {
    var h1 := OneExtension(h, n);
    var k := CountBelow(h1.ring, h.membase, 0);
    BaseIsNext(h, base, k);
    SpacedIsDistinct(h.ring, h.size, base, h.membase);
    assert TouchesUpper(h1.ring, h1.size, k, h.membase);
    assert Upper(h1, h.membase, k, h') || Bridge(h1, h.membase, k, h');
    Swallowed(h.ring, k, h.membase);
  }

  lemma BaseIsNext(h: State, base: int, k: nat)
    requires IsHeap(h, base) && h.allocp != 0 && h.membase < base && k == CountBelow(h.ring, h.membase, 0)
    ensures k < |h.ring| && h.ring[k] == base
  {
    var b :| 0 <= b < |h.ring| && h.ring[b] == base;
    assert forall i :: 0 <= i < |h.ring| && h.ring[i] != base ==> h.ring[i] < h.membase;
  }

  lemma Swallowed(ring: seq<int>, k: nat, p: int)
    requires Distinct(ring) && k < |ring| && p != ring[k]
    ensures ring[k] !in ring[k := p] && ring[k] !in ring[..k] + ring[k + 1..]
  {
    var r := ring[..k] + ring[k + 1..];
    assert forall i :: 0 <= i < |r| ==> r[i] == ring[if i < k then i else i + 1];
  }

  // ----- Runs -----

  datatype Op = MallocOp(n: int, hd: int) | FreeOp(p: int)

  /** Before the first call: no free list, no blocks, nothing obtained from sbrk(). */
  ghost predicate Untouched(h: State) {
    h.allocp == 0 && h.ring == [] && h.live == {} && h.owner == map[] && h.membase == HEAP_START
  }

  /** One call, by what it writes: nothing is said about the heap that it leaves. */
  ghost predicate Call(h: State, base: int, op: Op, h': State) {
    match op
    case MallocOp(n, hd) => 1 <= n && Room(h, base, n) && MallocWrites(h, base, n, hd, h')
    case FreeOp(p) => FreeWrites(h, p, h')
  }

  /** hs[0], hs[1], … are the states before, between and after the calls in ops. */
  ghost predicate Run(hs: seq<State>, base: int, ops: seq<Op>)
    decreases |ops|
  {
    && |hs| == |ops| + 1
    && (if ops == [] then BaseOk(base) && Untouched(hs[0])
        else
          var last := |ops| - 1;
          Run(hs[..|ops|], base, ops[..last]) && Call(hs[last], base, ops[last], hs[|ops|]))
  }

  /** One call as a step: it starts from a heap and leaves a heap. */
  ghost predicate CallStep(h: State, base: int, op: Op, h': State) {
    match op
    case MallocOp(n, hd) => 1 <= n && MallocStep(h, base, n, hd, h')
    case FreeOp(p) => FreeStep(h, base, p, h')
  }

  lemma CallIsSafe(h: State, base: int, op: Op, h': State)
    requires IsHeap(h, base) && Call(h, base, op, h')
    ensures CallStep(h, base, op, h') && IsHeap(h', base)
  {
    match op
    case MallocOp(n, hd) =>
      MallocWritesAreStep(h, base, n, hd, h');
      MallocEffect(h, base, n, hd, h');
    case FreeOp(p) =>
      FreeWritesAreStep(h, base, p, h');
  }

  lemma UntouchedIsHeap(h: State, base: int)
    requires BaseOk(base) && Untouched(h)
    ensures IsHeap(h, base)
  {
    assert Blocks(h, base) == {};
  }

  /** In every run, the state at the end is a heap, … */
  lemma {:induction false} RunEndsInHeap(hs: seq<State>, base: int, ops: seq<Op>)
    requires Run(hs, base, ops)
    ensures IsHeap(hs[|ops|], base)
    decreases |ops|
  {
    if ops == [] {
      UntouchedIsHeap(hs[0], base);
    } else {
      var last := |ops| - 1;
      RunEndsInHeap(hs[..|ops|], base, ops[..last]);
      CallIsSafe(hs[last], base, ops[last], hs[|ops|]);
    }
  }

  /** The first calls of a run are a run. */
  lemma {:induction false} RunPrefix(hs: seq<State>, base: int, ops: seq<Op>, i: nat)
    requires Run(hs, base, ops) && i <= |ops|
    ensures Run(hs[..i + 1], base, ops[..i])
    decreases |ops|
  {
    if i == |ops| {
      assert hs[..i + 1] == hs && ops[..i] == ops;
    } else {
      var last := |ops| - 1;
      RunPrefix(hs[..|ops|], base, ops[..last], i);
      assert hs[..|ops|][..i + 1] == hs[..i + 1] && ops[..last][..i] == ops[..i];
    }
  }

  /** … and so is every state before; */
  lemma RunIsHeap(hs: seq<State>, base: int, ops: seq<Op>, i: nat)
    requires Run(hs, base, ops) && i < |hs|
    ensures IsHeap(hs[i], base)
  {
    RunPrefix(hs, base, ops, i);
    RunEndsInHeap(hs[..i + 1], base, ops[..i]);
  }

  /** and no two live blocks overlap. */
  lemma RunIsSafe(hs: seq<State>, base: int, ops: seq<Op>, i: nat, a: int, b: int)
    requires Run(hs, base, ops) && i < |hs|
    requires a in hs[i].live && b in hs[i].live && a != b
    ensures a in hs[i].size && b in hs[i].size
    ensures a + hs[i].size[a] <= b || b + hs[i].size[b] <= a
  {
    RunIsHeap(hs, base, ops, i);
    LiveDisjoint(hs[i], base, a, b);
  }

  ghost predicate HeldAs(h: State, hd: int, n: int) {
    hd in h.live && hd in h.size && h.size[hd] == n
  }

  /** op does not hand out any of the n units from hd. */
  predicate Avoids(op: Op, hd: int, n: int) {
    op.MallocOp? ==> op.hd + op.n <= hd || hd + n <= op.hd
  }

  /** From the malloc() that returns a block until the free() of that block, it keeps its place and its size,
      and no malloc() in between returns a block that overlaps it. */
  lemma {:induction false} HeldUntilFreed(hs: seq<State>, base: int, ops: seq<Op>, i: nat, j: nat)
    requires Run(hs, base, ops) && i < j < |hs| && ops[i].MallocOp?
    requires forall k :: i < k < j ==> ops[k] != FreeOp(ops[i].hd)
    ensures HeldAs(hs[j], ops[i].hd, ops[i].n)
    ensures forall k :: i < k < j ==> Avoids(ops[k], ops[i].hd, ops[i].n)
    decreases j
  {
    if j == i + 1 {
      HandedOutAt(hs, base, ops, i);
    } else {
      HeldUntilFreed(hs, base, ops, i, j - 1);
      StillHeldAt(hs, base, ops, j - 1, ops[i].hd, ops[i].n);
    }
  }

  /** Call i of a run starts from a heap. */
  lemma CallAt(hs: seq<State>, base: int, ops: seq<Op>, i: nat)
    requires Run(hs, base, ops) && i < |ops|
    ensures IsHeap(hs[i], base) && Call(hs[i], base, ops[i], hs[i + 1])
  {
    RunPrefix(hs, base, ops, i + 1);
    LastCall(hs[..i + 2], base, ops[..i + 1], i);
  }

  lemma LastCall(hs: seq<State>, base: int, ops: seq<Op>, last: nat)
    requires Run(hs, base, ops) && |ops| == last + 1
    ensures IsHeap(hs[last], base) && Call(hs[last], base, ops[last], hs[last + 1])
  {
    RunEndsInHeap(hs[..last + 1], base, ops[..last]);
  }

  lemma HandedOutAt(hs: seq<State>, base: int, ops: seq<Op>, i: nat)
    requires Run(hs, base, ops) && i < |ops| && ops[i].MallocOp?
    ensures HeldAs(hs[i + 1], ops[i].hd, ops[i].n)
  {
    CallAt(hs, base, ops, i);
    MallocHolds(hs[i], base, ops[i], hs[i + 1]);
  }

  lemma StillHeldAt(hs: seq<State>, base: int, ops: seq<Op>, j: nat, hd: int, n: int)
    requires Run(hs, base, ops) && j < |ops| && ops[j] != FreeOp(hd) && HeldAs(hs[j], hd, n)
    ensures HeldAs(hs[j + 1], hd, n) && Avoids(ops[j], hd, n)
  {
    CallAt(hs, base, ops, j);
    HeldCall(hs[j], base, ops[j], hs[j + 1], hd, n);
  }

  lemma MallocHolds(h: State, base: int, op: Op, h': State)
    requires IsHeap(h, base) && Call(h, base, op, h') && op.MallocOp?
    ensures HeldAs(h', op.hd, op.n)
  {
    CallIsSafe(h, base, op, h');
    MallocEffect(h, base, op.n, op.hd, h');
  }

  /** One call that does not free block hd leaves it alone. */
  lemma HeldCall(h: State, base: int, op: Op, h': State, hd: int, n: int)
    requires IsHeap(h, base) && Call(h, base, op, h') && op != FreeOp(hd)
    requires HeldAs(h, hd, n)
    ensures HeldAs(h', hd, n) && Avoids(op, hd, n)
  {
    CallIsSafe(h, base, op, h');
    HeldStep(h, base, op, h', hd, n);
  }

  lemma HeldStep(h: State, base: int, op: Op, h': State, hd: int, n: int)
    requires IsHeap(h, base) && CallStep(h, base, op, h') && op != FreeOp(hd)
    requires HeldAs(h, hd, n)
    ensures HeldAs(h', hd, n) && Avoids(op, hd, n)
  {
    match op
    case MallocOp(n', hd') => MallocEffect(h, base, n', hd', h');
    case FreeOp(p) => assert hd in h'.live;
  }
}
