/** States of the allocator (malloc.c) and what one malloc or free does to them. */
module Heap {
  import opened FreeList

  /** `ptr` and `size` are the two fields of the HEADER at each address; `allocp` is the rover,
      0 before the first call. `ring`, `live` and `owner` say what the pointers mean: the free list,
      the blocks handed out, and the block each unit of the heap belongs to. */
  datatype State = State(
    ptr: map<int, int>, size: map<int, int>, allocp: int, membase: int,
    ring: seq<int>, live: set<int>, owner: map<int, int>)

  /** The heap may grow up to this address: the end of the address space, or `base` when it lies above. */
  function Limit(base: int): int {
    if base < HEAP_START then ADDRESS_UNITS else base
  }

  predicate BaseOk(base: int) {
    0 < base < ADDRESS_UNITS && base != HEAP_START
  }

  ghost function Blocks(h: State, base: int): set<int> {
    (Nodes(h.ring) - {base}) + h.live
  }

  ghost predicate IsHeap(h: State, base: int) {
    && BaseOk(base) && h.membase < Limit(base)
    && h.live !! Nodes(h.ring) && base !in h.live
    && Tiled(h.owner, h.size, Blocks(h, base), h.membase)
    && Linked(h.ring, h.ptr)
    && Spaced(h.ring, h.size, base, h.membase)
    && (if h.allocp == 0 then h.ring == [] && h.live == {} else base in h.ring && h.allocp in h.ring)
  }

  /** Unit u of the heap is held by no caller. */
  ghost predicate FreeUnit(h: State, u: int) {
    u in h.owner && h.owner[u] !in h.live
  }

  /** The free units of h' are those of h and the n units from p. */
  ghost predicate Released(h: State, h': State, p: int, n: int) {
    forall u :: FreeUnit(h', u) <==> FreeUnit(h, u) || p <= u < p + n
  }

  /** The blocks in `held` keep their place and size from h to h'. */
  ghost predicate Keeps(h: State, h': State, held: set<int>) {
    && held <= h.live && held <= h'.live
    && (forall b :: b in held ==> b in h.size && b in h'.size && h'.size[b] == h.size[b])
  }

  /** Some free block of h contains all of [p, p + n). */
  ghost predicate FreeBlockHolds(h: State, p: int, n: int) {
    exists b :: b in h.ring && b in h.size && b <= p && p + n <= b + h.size[b]
  }

  /** free() of the block at p. */
  ghost predicate FreeStep(h: State, base: int, p: int, h': State) {
    && p in h.live && p in h.size
    && IsHeap(h', base)
    && h'.allocp != 0
    && h'.membase == h.membase
    && h'.live == h.live - {p}
    && Keeps(h, h', h'.live)
    && Released(h, h', p, h.size[p])
    && FreeBlockHolds(h', p, h.size[p])
  }

  // ----- free() -----

  /** k is the place of block p in the ring. */
  ghost predicate Placed(h: State, base: int, p: int, k: nat) {
    && IsHeap(h, base) && p in h.live && k <= |h.ring|
    && (forall i {:trigger h.ring[i]} :: 0 <= i < k ==> h.ring[i] < p)
    && (forall i {:trigger h.ring[i]} :: k <= i < |h.ring| ==> p < h.ring[i])
  }

  /** What the ring alone says about a block p that is about to join it at place k. */
  ghost predicate Ready(h: State, base: int, p: int, k: nat) {
    && Linked(h.ring, h.ptr) && Spaced(h.ring, h.size, base, h.membase) && Distinct(h.ring)
    && Between(h.ring, h.size, h.membase, k, p)
    && p !in h.ring && p != base && base in h.ring && 0 !in h.ring
    && (TouchesUpper(h.ring, h.size, k, p) ==> h.ring[k] != base)
    && (TouchesLower(h.ring, h.size, k, p) ==> h.ring[k - 1] != base)
  }

  /** A live block p and a node b do not overlap; base does not even touch p. */
  ghost predicate Apart(size: map<int, int>, base: int, p: int, b: int) {
    && b != p && p in size && b in size
    && (b < p ==> b + size[b] <= p)
    && (p < b ==> p + size[p] <= b && (b == base ==> p + size[p] < b))
    && (b + size[b] == p ==> b != base)
  }

  lemma NodesApart(h: State, base: int, p: int, b: int)
    requires IsHeap(h, base) && p in h.live && b in h.ring
    ensures Apart(h.size, base, p, b)
  {
    assert b in Nodes(h.ring) && p in Blocks(h, base);
    if b == base {
      BaseIsEmpty(h.ring, h.size, base, h.membase);
      BlockApartFromBase(h.owner, h.size, Blocks(h, base), base, h.membase, p);
    } else {
      assert b in Blocks(h, base) && b != p;
      BlocksApart(h.owner, h.size, Blocks(h, base), base, h.membase, p, b);
    }
  }

  lemma BaseIsEmpty(ring: seq<int>, size: map<int, int>, base: int, membase: int)
    requires Spaced(ring, size, base, membase) && base in ring
    ensures base in size && size[base] == 0
  {
  }

  lemma BlockApartFromBase(owner: map<int, int>, size: map<int, int>, blocks: set<int>, base: int, membase: int, p: int)
    requires Tiled(owner, size, blocks, membase) && p in blocks
    requires BaseOk(base) && membase < Limit(base) && base in size && size[base] == 0
    ensures Apart(size, base, p, base)
  {
  }

  lemma BlocksApart(owner: map<int, int>, size: map<int, int>, blocks: set<int>, base: int, membase: int, p: int, b: int)
    requires Tiled(owner, size, blocks, membase) && p in blocks && b in blocks && b != p && b != base
    ensures Apart(size, base, p, b)
  {
    if b < p {
      BlocksDisjoint(owner, size, blocks, membase, b, p);
    } else {
      BlocksDisjoint(owner, size, blocks, membase, p, b);
    }
  }

  lemma PlacedIsReady(h: State, base: int, p: int, k: nat)
    requires Placed(h, base, p, k)
    ensures Ready(h, base, p, k) && TiledWith(h, base, p)
  {
    assert p in Blocks(h, base);
    forall i | 0 <= i < |h.ring|
      ensures Apart(h.size, base, p, h.ring[i])
    {
      NodesApart(h, base, p, h.ring[i]);
    }
    SpacedIsDistinct(h.ring, h.size, base, h.membase);
    RoomBetween(h.ring, h.size, h.membase, base, k, p);
  }

  lemma RoomBetween(ring: seq<int>, size: map<int, int>, membase: int, base: int, k: nat, p: int)
    requires k <= |ring| && p in size && HEAP_START <= p && 1 <= size[p] && p + size[p] <= membase
    requires forall i {:trigger ring[i]} :: 0 <= i < |ring| ==> Apart(size, base, p, ring[i])
    requires forall i {:trigger ring[i]} :: 0 <= i < k ==> ring[i] < p
    requires forall i {:trigger ring[i]} :: k <= i < |ring| ==> p < ring[i]
    ensures Between(ring, size, membase, k, p) && p !in ring
    ensures TouchesUpper(ring, size, k, p) ==> ring[k] != base
    ensures TouchesLower(ring, size, k, p) ==> ring[k - 1] != base
  {
  }

  /** Releasing block p frees exactly its own units. */
  lemma ReleaseUnits(h: State, base: int, p: int)
    requires IsHeap(h, base) && p in h.live
    ensures forall u :: (u in h.owner && h.owner[u] !in h.live - {p}) <==> FreeUnit(h, u) || p <= u < p + h.size[p]
  {
    var blocks := Blocks(h, base);
    assert p in blocks;
    forall u | p <= u < p + h.size[p]
      ensures u in h.owner && h.owner[u] == p
    {
      assert HEAP_START <= u < h.membase;
    }
    assert forall u :: u in h.owner && h.owner[u] == p ==> p <= u < p + h.size[p];
  }

  // The four ways free() can end. In each, q is the node before place k.

  /** Block p, its place k, and the node q before that place. */
  ghost predicate AtPlace(h: State, p: int, k: nat, q: int) {
    && 0 < |h.ring| && k <= |h.ring| && p in h.size
    && (forall i {:trigger h.ring[i]} :: 0 <= i < |h.ring| ==> h.ring[i] in h.size && h.ring[i] in h.ptr)
    && q == h.ring[Prev(k, |h.ring|)]
  }

  /** No neighbour of p is free: p becomes a node. */
  ghost predicate Alone(h: State, p: int, k: nat, h': State)
    requires AtPlace(h, p, k, h'.allocp)
  {
    && !TouchesLower(h.ring, h.size, k, p) && !TouchesUpper(h.ring, h.size, k, p)
    && h'.ring == h.ring[..k] + [p] + h.ring[k..]
    && h'.ptr == h.ptr[p := h.ptr[h'.allocp]][h'.allocp := p]
    && h'.size == h.size
    && h'.owner == h.owner
  }

  /** p absorbs the node above it. */
  ghost predicate Upper(h: State, p: int, k: nat, h': State)
    requires AtPlace(h, p, k, h'.allocp)
  {
    && !TouchesLower(h.ring, h.size, k, p) && TouchesUpper(h.ring, h.size, k, p)
    && h'.ring == h.ring[k := p]
    && h'.ptr == h.ptr[p := h.ptr[h.ring[k]]][h'.allocp := p]
    && h'.size == h.size[p := h.size[p] + h.size[h.ring[k]]]
    && h'.owner == Merged(h.owner, p, h.ring[k])
  }

  /** The node below p absorbs it. */
  ghost predicate Lower(h: State, p: int, k: nat, h': State)
    requires AtPlace(h, p, k, h'.allocp)
  {
    && TouchesLower(h.ring, h.size, k, p) && !TouchesUpper(h.ring, h.size, k, p)
    && h'.ring == h.ring
    && h'.ptr == h.ptr[p := h.ptr[h'.allocp]][h'.allocp := h.ptr[h'.allocp]]
    && h'.size == h.size[h'.allocp := h.size[h'.allocp] + h.size[p]]
    && h'.owner == Merged(h.owner, h'.allocp, p)
  }

  /** The node below p absorbs p and the node above it. */
  ghost predicate Bridge(h: State, p: int, k: nat, h': State)
    requires AtPlace(h, p, k, h'.allocp)
  {
    && TouchesLower(h.ring, h.size, k, p) && TouchesUpper(h.ring, h.size, k, p)
    && h'.ring == h.ring[..k] + h.ring[k + 1..]
    && (var up := h.size[p] + h.size[h.ring[k]];
        && h'.ptr == h.ptr[p := h.ptr[h.ring[k]]][h'.allocp := h.ptr[h.ring[k]]]
        && h'.size == h.size[p := up][h'.allocp := h.size[h'.allocp] + up])
    && h'.owner == Merged(Merged(h.owner, p, h.ring[k]), h'.allocp, p)
  }

  /** The part all four share. */
  ghost predicate Rest(h: State, p: int, k: nat, h': State) {
    && AtPlace(h, p, k, h'.allocp)
    && h'.live == h.live - {p} && h'.membase == h.membase
  }

  ghost predicate Joined(h: State, p: int, k: nat, h': State) {
    && Rest(h, p, k, h')
    && (Alone(h, p, k, h') || Upper(h, p, k, h') || Lower(h, p, k, h') || Bridge(h, p, k, h'))
  }

  ghost predicate Members(h: State, base: int, p: int, h': State) {
    && base in h'.ring && h'.allocp in h'.ring && h'.allocp != 0
    && (forall x :: x in h'.ring ==> x in h.ring || x == p)
  }

  // Linked, spaced, tiled, and the units of p freed: each shown for each of the four.

  lemma MembersKept(h: State, base: int, p: int, gone: int, h': State)
    requires base in h.ring && h'.allocp in h.ring && 0 !in h.ring
    requires base != gone && h'.allocp != gone
    requires Nodes(h.ring) - {gone} <= Nodes(h'.ring) <= Nodes(h.ring) + {p}
    ensures Members(h, base, p, h')
  {
    assert base in Nodes(h.ring) - {gone} && h'.allocp in Nodes(h.ring) - {gone};
    forall x | x in h'.ring
      ensures x in h.ring || x == p
    {
      assert x in Nodes(h'.ring);
    }
  }

  lemma AloneRing(h: State, base: int, p: int, k: nat, h': State)
    requires Ready(h, base, p, k) && Rest(h, p, k, h') && Alone(h, p, k, h')
    ensures Linked(h'.ring, h'.ptr) && Spaced(h'.ring, h'.size, base, h'.membase)
    ensures Nodes(h'.ring) == Nodes(h.ring) + {p} && Members(h, base, p, h')
  {
    SplicedIn(h.ring, k, p);
    NodesInserted(h.ring, k, p, h'.ring);
    WriteInsert(h.ring, h.ptr, k, p, h'.ring);
    SpacedInsert(h.ring, h.size, base, h.membase, k, p, h'.ring);
    MembersKept(h, base, p, p, h');
  }

  lemma UpperRing(h: State, base: int, p: int, k: nat, h': State)
    requires Ready(h, base, p, k) && Rest(h, p, k, h') && Upper(h, p, k, h')
    ensures Linked(h'.ring, h'.ptr)
    ensures Nodes(h'.ring) == Nodes(h.ring) - {h.ring[k]} + {p}
    ensures Members(h, base, p, h')
  {
    assert h.ring[k] != base;
    NodesReplaced(h.ring, k, p);
    WriteReplace(h.ring, h.ptr, k, p);
    MembersKept(h, base, p, h.ring[k], h');
  }

  lemma UpperSpaced(h: State, base: int, p: int, k: nat, h': State)
    requires Ready(h, base, p, k) && Rest(h, p, k, h') && Upper(h, p, k, h')
    ensures Spaced(h'.ring, h'.size, base, h'.membase)
  {
    SpacedAbsorbUpper(h.ring, h.size, base, h.membase, k, p);
  }

  lemma LowerRing(h: State, base: int, p: int, k: nat, h': State)
    requires Ready(h, base, p, k) && Rest(h, p, k, h') && Lower(h, p, k, h')
    ensures Linked(h'.ring, h'.ptr) && Members(h, base, p, h')
  {
    WriteSame(h.ring, h.ptr, p, h'.allocp);
  }

  lemma LowerSpaced(h: State, base: int, p: int, k: nat, h': State)
    requires Ready(h, base, p, k) && Rest(h, p, k, h') && Lower(h, p, k, h')
    ensures Spaced(h'.ring, h'.size, base, h'.membase)
  {
    LowerNode(h, p, k, h');
    SpacedGrowLower(h.ring, h.size, base, h.membase, k, p, h'.size);
  }

  lemma LowerNode(h: State, p: int, k: nat, h': State)
    requires AtPlace(h, p, k, h'.allocp) && Lower(h, p, k, h')
    ensures 0 < k && h'.ring == h.ring
    ensures h'.size == h.size[h.ring[k - 1] := h.size[h.ring[k - 1]] + h.size[p]]
  {
  }

  lemma BridgeRing(h: State, base: int, p: int, k: nat, h': State)
    requires Ready(h, base, p, k) && Rest(h, p, k, h') && Bridge(h, p, k, h')
    ensures Linked(h'.ring, h'.ptr)
    ensures Nodes(h'.ring) == Nodes(h.ring) - {h.ring[k]} && Members(h, base, p, h')
  {
    SplicedOut(h.ring, k);
    NodesRemoved(h.ring, k, h'.ring);
    WriteRemove(h.ring, h.ptr, k, p, h'.ring);
    MembersKept(h, base, p, h.ring[k], h');
  }

  lemma BridgeSpaced(h: State, base: int, p: int, k: nat, h': State)
    requires Ready(h, base, p, k) && Rest(h, p, k, h') && Bridge(h, p, k, h')
    ensures Spaced(h'.ring, h'.size, base, h'.membase)
  {
    assert h'.allocp == h.ring[k - 1];
    SplicedOut(h.ring, k);
    SpacedBridge(h.ring, h.size, base, h.membase, k, p, h'.ring, h'.size);
  }

  /** The blocks of h tile its heap, the live block p among them. */
  ghost predicate TiledWith(h: State, base: int, p: int) {
    && Tiled(h.owner, h.size, Blocks(h, base), h.membase)
    && p in h.live && p !in h.ring && p != base && base !in h.live && h.live !! Nodes(h.ring)
  }

  /** Nothing that is still live changed hands, and some node holds the units of p. */
  ghost predicate Settled(h: State, p: int, h': State) {
    && p in h.size
    && h'.owner.Keys == h.owner.Keys
    && (forall u {:trigger h'.owner[u]} :: u in h.owner ==> (h'.owner[u] in h'.live <==> h.owner[u] in h'.live))
    && Keeps(h, h', h'.live)
    && FreeBlockHolds(h', p, h.size[p])
  }

  lemma AloneTiled(h: State, base: int, p: int, k: nat, h': State)
    requires TiledWith(h, base, p) && Rest(h, p, k, h') && Alone(h, p, k, h')
    requires Nodes(h'.ring) == Nodes(h.ring) + {p}
    ensures Tiled(h'.owner, h'.size, Blocks(h', base), h'.membase) && Settled(h, p, h')
  {
    assert Blocks(h', base) == Blocks(h, base);
    assert p in Nodes(h'.ring);
    forall b | b in h'.live
      ensures b in h.size
    {
      assert b in Blocks(h, base);
    }
  }

  lemma UpperTiled(h: State, base: int, p: int, k: nat, h': State)
    requires TiledWith(h, base, p) && Rest(h, p, k, h') && Upper(h, p, k, h') && h.ring[k] != base
    requires Nodes(h'.ring) == Nodes(h.ring) - {h.ring[k]} + {p}
    ensures Tiled(h'.owner, h'.size, Blocks(h', base), h'.membase) && Settled(h, p, h')
  {
    var r := h.ring[k];
    assert r in Nodes(h.ring) && r in Blocks(h, base) && p in Blocks(h, base);
    TiledMerge(h.owner, h.size, Blocks(h, base), h.membase, p, r, h'.size);
    assert Blocks(h', base) == Blocks(h, base) - {r};
    assert p in Nodes(h'.ring);
    forall b | b in h'.live
      ensures b in h.size
    {
      assert b in Blocks(h, base);
    }
  }

  lemma LowerTiled(h: State, base: int, p: int, k: nat, h': State)
    requires TiledWith(h, base, p) && Rest(h, p, k, h') && Lower(h, p, k, h') && h.ring[k - 1] != base
    ensures Tiled(h'.owner, h'.size, Blocks(h', base), h'.membase) && Settled(h, p, h')
  {
    var q := h.ring[k - 1];
    assert q in Nodes(h.ring) && q in Blocks(h, base) && p in Blocks(h, base) && p !in Nodes(h.ring);
    TiledMerge(h.owner, h.size, Blocks(h, base), h.membase, q, p, h'.size);
    assert Blocks(h', base) == Blocks(h, base) - {p};
    forall b | b in h'.live
      ensures b in h.size
    {
      assert b in Blocks(h, base);
    }
    assert q in h'.ring && q <= p && p + h.size[p] <= q + h'.size[q];
  }

  lemma BridgeTiled(h: State, base: int, p: int, k: nat, h': State)
    requires TiledWith(h, base, p) && Rest(h, p, k, h') && Bridge(h, p, k, h')
    requires h.ring[k] != base && h.ring[k - 1] != base && h.ring[k] != h.ring[k - 1]
    requires Nodes(h'.ring) == Nodes(h.ring) - {h.ring[k]}
    ensures Tiled(h'.owner, h'.size, Blocks(h', base), h'.membase)
  {
    var q, r := h.ring[k - 1], h.ring[k];
    var blocks := Blocks(h, base);
    assert q in Nodes(h.ring) && r in Nodes(h.ring) && p !in Nodes(h.ring);
    assert q in blocks && r in blocks && p in blocks;
    var size1 := h.size[p := h.size[p] + h.size[r]];
    TiledMerge(h.owner, h.size, blocks, h.membase, p, r, size1);
    TiledMerge(Merged(h.owner, p, r), size1, blocks - {r}, h.membase, q, p, h'.size);
    assert Blocks(h', base) == blocks - {r} - {p};
  }

  lemma BridgeSettled(h: State, base: int, p: int, k: nat, h': State)
    requires TiledWith(h, base, p) && Rest(h, p, k, h') && Bridge(h, p, k, h')
    requires h.ring[k] != base && h.ring[k - 1] != base && h.ring[k] != h.ring[k - 1]
    requires Nodes(h'.ring) == Nodes(h.ring) - {h.ring[k]}
    ensures Settled(h, p, h')
  {
    var q, r := h.ring[k - 1], h.ring[k];
    assert q in Nodes(h.ring) && r in Nodes(h.ring) && p in Blocks(h, base) && r in Blocks(h, base);
    assert q in Nodes(h'.ring);
    forall b | b in h'.live
      ensures b in h.size
    {
      assert b in Blocks(h, base);
    }
    assert q in h'.ring && q <= p && p + h.size[p] <= q + h'.size[q];
  }

  /** The part of a FreeStep that each of the four ways has to show. */
  ghost predicate Outcome(h: State, base: int, p: int, h': State) {
    && Members(h, base, p, h')
    && Linked(h'.ring, h'.ptr) && Spaced(h'.ring, h'.size, base, h'.membase)
    && Tiled(h'.owner, h'.size, Blocks(h', base), h'.membase)
    && Settled(h, p, h')
  }

  lemma AloneOutcome(h: State, base: int, p: int, k: nat, h': State)
    requires Ready(h, base, p, k) && TiledWith(h, base, p) && Rest(h, p, k, h') && Alone(h, p, k, h')
    ensures Outcome(h, base, p, h')
  {
    AloneRing(h, base, p, k, h');
    AloneTiled(h, base, p, k, h');
  }

  lemma UpperOutcome(h: State, base: int, p: int, k: nat, h': State)
    requires Ready(h, base, p, k) && TiledWith(h, base, p) && Rest(h, p, k, h') && Upper(h, p, k, h')
    ensures Outcome(h, base, p, h')
  {
    UpperRing(h, base, p, k, h');
    UpperSpaced(h, base, p, k, h');
    UpperTiled(h, base, p, k, h');
  }

  lemma LowerOutcome(h: State, base: int, p: int, k: nat, h': State)
    requires Ready(h, base, p, k) && TiledWith(h, base, p) && Rest(h, p, k, h') && Lower(h, p, k, h')
    ensures Outcome(h, base, p, h')
  {
    LowerRing(h, base, p, k, h');
    LowerSpaced(h, base, p, k, h');
    LowerTiled(h, base, p, k, h');
  }

  lemma BridgeOutcome(h: State, base: int, p: int, k: nat, h': State)
    requires Ready(h, base, p, k) && TiledWith(h, base, p) && Rest(h, p, k, h') && Bridge(h, p, k, h')
    ensures Outcome(h, base, p, h')
  {
    BridgeRing(h, base, p, k, h');
    BridgeSpaced(h, base, p, k, h');
    BridgeTiled(h, base, p, k, h');
    BridgeSettled(h, base, p, k, h');
  }

  lemma OutcomeIsFreeStep(h: State, base: int, p: int, h': State)
    requires IsHeap(h, base) && p in h.live
    requires h'.live == h.live - {p} && h'.membase == h.membase
    requires Outcome(h, base, p, h')
    ensures FreeStep(h, base, p, h')
  {
    ReleaseUnits(h, base, p);
    forall u
      ensures FreeUnit(h', u) <==> FreeUnit(h, u) || p <= u < p + h.size[p]
    {
      assert u in h'.owner <==> u in h.owner;
    }
  }

  lemma FreeAlone(h: State, base: int, p: int, k: nat, h': State)
    requires Placed(h, base, p, k) && Rest(h, p, k, h') && Alone(h, p, k, h')
    ensures FreeStep(h, base, p, h')
  {
    PlacedIsReady(h, base, p, k);
    AloneOutcome(h, base, p, k, h');
    OutcomeIsFreeStep(h, base, p, h');
  }

  lemma FreeUpper(h: State, base: int, p: int, k: nat, h': State)
    requires Placed(h, base, p, k) && Rest(h, p, k, h') && Upper(h, p, k, h')
    ensures FreeStep(h, base, p, h')
  {
    PlacedIsReady(h, base, p, k);
    UpperOutcome(h, base, p, k, h');
    OutcomeIsFreeStep(h, base, p, h');
  }

  lemma FreeLower(h: State, base: int, p: int, k: nat, h': State)
    requires Placed(h, base, p, k) && Rest(h, p, k, h') && Lower(h, p, k, h')
    ensures FreeStep(h, base, p, h')
  {
    PlacedIsReady(h, base, p, k);
    LowerOutcome(h, base, p, k, h');
    OutcomeIsFreeStep(h, base, p, h');
  }

  lemma FreeBridge(h: State, base: int, p: int, k: nat, h': State)
    requires Placed(h, base, p, k) && Rest(h, p, k, h') && Bridge(h, p, k, h')
    ensures FreeStep(h, base, p, h')
  {
    PlacedIsReady(h, base, p, k);
    BridgeOutcome(h, base, p, k, h');
    OutcomeIsFreeStep(h, base, p, h');
  }

  /** However free() ends, it is a FreeStep. */
  lemma FreeCorrect(h: State, base: int, p: int, k: nat, h': State)
    requires Placed(h, base, p, k) && Joined(h, p, k, h')
    ensures FreeStep(h, base, p, h')
  {
    if Alone(h, p, k, h') {
      FreeAlone(h, base, p, k, h');
    } else if Upper(h, p, k, h') {
      FreeUpper(h, base, p, k, h');
    } else if Lower(h, p, k, h') {
      FreeLower(h, base, p, k, h');
    } else {
      FreeBridge(h, base, p, k, h');
    }
  }

  // ----- malloc() -----

  /** Some free block has at least n units. */
  ghost predicate Fits(h: State, n: int) {
    exists i :: 0 <= i < |h.ring| && h.ring[i] in h.size && n <= h.size[h.ring[i]]
  }

  /** Node k is the first of at least n units on the way round from the rover's successor. */
  ghost predicate FirstFit(h: State, n: int, k: int) {
    && 0 <= k < |h.ring|
    && (forall i {:trigger h.ring[i]} :: 0 <= i < |h.ring| ==> h.ring[i] in h.size)
    && n <= h.size[h.ring[k]]
    && (exists a :: 0 <= a < |h.ring| && h.ring[a] == h.allocp && SmallBefore(h, n, a, Dist(k, a, |h.ring|)))
  }

  /** Every node more than d links before the rover, node a, is smaller than n units. */
  ghost predicate SmallBefore(h: State, n: int, a: int, d: int)
    requires forall i :: 0 <= i < |h.ring| ==> h.ring[i] in h.size
  {
    forall j {:trigger h.ring[j]} :: 0 <= j < |h.ring| && d < Dist(j, a, |h.ring|) ==> h.size[h.ring[j]] < n
  }

  /** The last n units of node k become the live block hd. */
  ghost predicate TakeStep(h: State, base: int, k: nat, n: int, hd: int, h': State) {
    && k < |h.ring| && h.ring[k] in h.size && hd + n == h.ring[k] + h.size[h.ring[k]]
    && IsHeap(h', base)
    && hd !in h.live && h'.live == h.live + {hd} && hd in h'.size && h'.size[hd] == n
    && h'.membase == h.membase && h'.allocp == h.ring[Prev(k, |h.ring|)] && h'.allocp != 0
    && Keeps(h, h', h.live)
    && UnitsTaken(h, hd, n, h')
  }

  /** The n units from hd were free, and they alone are free no more. */
  ghost predicate UnitsTaken(h: State, hd: int, n: int, h': State) {
    && (forall u :: hd <= u < hd + n ==> FreeUnit(h, u))
    && (forall u :: FreeUnit(h', u) <==> FreeUnit(h, u) && !(hd <= u < hd + n))
  }

  /** The heap grows by n units, all of them free. */
  ghost predicate GrowStep(h: State, base: int, n: int, h': State) {
    && IsHeap(h', base) && h'.allocp != 0
    && h'.membase == h.membase + n
    && h'.live == h.live && Keeps(h, h', h.live)
    && Released(h, h', h.membase, n)
    && FreeBlockHolds(h', h.membase, n)
  }

  ghost predicate Chosen(h: State, base: int, k: nat) {
    && Linked(h.ring, h.ptr) && Spaced(h.ring, h.size, base, h.membase) && Distinct(h.ring)
    && base in h.ring && 0 !in h.ring
    && k < |h.ring| && h.ring[k] != base && h.ring[Prev(k, |h.ring|)] in h.ptr && h.ring[k] in h.ptr
  }

  /** Node k leaves the ring whole. */
  ghost predicate Whole(h: State, k: nat, n: int, h': State) {
    && k < |h.ring| && h.ring[k] in h.size && h.size[h.ring[k]] == n
    && h'.allocp == h.ring[Prev(k, |h.ring|)] && h'.allocp in h.ptr && h.ring[k] in h.ptr
    && h'.ring == h.ring[..k] + h.ring[k + 1..]
    && h'.ptr == h.ptr[h'.allocp := h.ptr[h.ring[k]]]
    && h'.size == h.size && h'.owner == h.owner && h'.membase == h.membase
    && h'.live == h.live + {h.ring[k]}
  }

  /** Node k keeps its first units. */
  ghost predicate Tail(h: State, k: nat, n: int, hd: int, h': State) {
    && k < |h.ring| && h.ring[k] in h.size && 1 <= n < h.size[h.ring[k]]
    && hd == h.ring[k] + h.size[h.ring[k]] - n
    && h'.allocp == h.ring[Prev(k, |h.ring|)]
    && h'.ring == h.ring && h'.ptr == h.ptr && h'.membase == h.membase
    && h'.size == h.size[h.ring[k] := h.size[h.ring[k]] - n][hd := n]
    && h'.owner == Carved(h.owner, hd, n)
    && h'.live == h.live + {hd}
  }

  lemma HeapIsChosen(h: State, base: int, k: nat, n: int)
    requires IsHeap(h, base) && h.allocp != 0 && 1 <= n
    requires k < |h.ring| && n <= h.size[h.ring[k]]
    ensures Chosen(h, base, k)
  {
    SpacedIsDistinct(h.ring, h.size, base, h.membase);
  }

  lemma WholeRing(h: State, base: int, k: nat, n: int, h': State)
    requires Chosen(h, base, k) && Whole(h, k, n, h')
    ensures Linked(h'.ring, h'.ptr) && Spaced(h'.ring, h'.size, base, h'.membase)
    ensures Nodes(h'.ring) == Nodes(h.ring) - {h.ring[k]}
    ensures base in h'.ring && h'.allocp in h'.ring && h'.allocp != 0
  {
    SplicedOut(h.ring, k);
    NodesRemoved(h.ring, k, h'.ring);
    WriteUnlink(h.ring, h.ptr, k, h'.ring);
    SpacedRemove(h.ring, h.size, base, h.membase, k, h'.ring);
    assert base in Nodes(h'.ring) && h'.allocp in Nodes(h'.ring);
  }

  /** Free and live blocks together tile the heap. */
  ghost predicate Parted(h: State, base: int) {
    && Tiled(h.owner, h.size, Blocks(h, base), h.membase)
    && h.live !! Nodes(h.ring) && base !in h.live
  }

  /** The units of a block. */
  lemma UnitsOf(h: State, base: int, b: int)
    requires Parted(h, base) && b in Blocks(h, base)
    ensures forall u :: b <= u < b + h.size[b] <==> u in h.owner && h.owner[u] == b
  {
    forall u | b <= u < b + h.size[b]
      ensures u in h.owner && h.owner[u] == b
    {
      assert HEAP_START <= u < h.membase;
    }
  }

  lemma LiveKept(h: State, base: int, h': State)
    requires IsHeap(h, base) && h.live <= h'.live
    requires forall b :: b in h.live && b in h.size ==> b in h'.size && h'.size[b] == h.size[b]
    ensures Keeps(h, h', h.live)
  {
    forall b | b in h.live
      ensures b in h.size
    {
      assert b in Blocks(h, base);
    }
  }

  lemma WholeBlocks(h: State, base: int, k: nat, n: int, h': State)
    requires Whole(h, k, n, h') && h.ring[k] != base && h.live !! Nodes(h.ring)
    requires Nodes(h'.ring) == Nodes(h.ring) - {h.ring[k]}
    ensures Blocks(h', base) == Blocks(h, base) && h'.live !! Nodes(h'.ring)
  {
    assert h.ring[k] in Nodes(h.ring);
  }

  lemma WholeUnits(h: State, base: int, k: nat, n: int, h': State)
    requires Parted(h, base) && Whole(h, k, n, h') && h.ring[k] != base
    ensures h.ring[k] !in h.live
    ensures UnitsTaken(h, h.ring[k], n, h')
  {
    var p := h.ring[k];
    assert p in Nodes(h.ring) && p in Blocks(h, base);
    UnitsOf(h, base, p);
    forall u
      ensures FreeUnit(h', u) <==> FreeUnit(h, u) && !(p <= u < p + n)
    {
      if u in h.owner {
        assert p <= u < p + n <==> h.owner[u] == p;
      }
    }
  }

  lemma TakeWhole(h: State, base: int, k: nat, n: int, h': State)
    requires IsHeap(h, base) && h.allocp != 0 && 1 <= n
    requires Whole(h, k, n, h')
    ensures TakeStep(h, base, k, n, h.ring[k], h')
  {
    HeapIsChosen(h, base, k, n);
    WholeRing(h, base, k, n, h');
    WholeUnits(h, base, k, n, h');
    WholeBlocks(h, base, k, n, h');
    LiveKept(h, base, h');
  }

  ghost predicate BaseApart(h: State, base: int) {
    base < HEAP_START || h.membase < base
  }

  lemma TailTiled(h: State, base: int, k: nat, n: int, hd: int, h': State)
    requires Parted(h, base) && BaseApart(h, base) && Tail(h, k, n, hd, h') && h.ring[k] != base
    ensures Tiled(h'.owner, h'.size, Blocks(h', base), h'.membase)
    ensures hd !in Blocks(h, base) && hd != base && hd !in h.ring
  {
    var p := h.ring[k];
    assert p in Nodes(h.ring) && p in Blocks(h, base);
    TiledCarve(h.owner, h.size, Blocks(h, base), h.membase, p, n, hd, h'.size);
    assert hd !in Nodes(h.ring);
    assert Blocks(h', base) == Blocks(h, base) + {hd};
  }

  lemma TailUnits(h: State, base: int, k: nat, n: int, hd: int, h': State)
    requires Parted(h, base) && BaseApart(h, base) && Tail(h, k, n, hd, h') && h.ring[k] != base
    requires hd !in Blocks(h, base)
    ensures UnitsTaken(h, hd, n, h')
  {
    var p := h.ring[k];
    assert p in Nodes(h.ring) && p in Blocks(h, base);
    UnitsOf(h, base, p);
    forall u
      ensures FreeUnit(h', u) <==> FreeUnit(h, u) && !(hd <= u < hd + n)
    {
      if u in h.owner {
        assert h.owner[u] in Blocks(h, base);
      }
    }
  }

  lemma TailRing(h: State, base: int, k: nat, n: int, hd: int, h': State)
    requires Chosen(h, base, k) && Tail(h, k, n, hd, h') && hd !in h.ring && hd != base
    ensures Linked(h'.ring, h'.ptr) && Spaced(h'.ring, h'.size, base, h'.membase)
    ensures base in h'.ring && h'.allocp in h'.ring && h'.allocp != 0
  {
    SpacedShrink(h.ring, h.size, base, h.membase, k, n, hd);
  }

  lemma TailIsHeap(h: State, base: int, k: nat, n: int, hd: int, h': State)
    requires IsHeap(h, base) && h.allocp != 0 && Tail(h, k, n, hd, h')
    ensures IsHeap(h', base) && UnitsTaken(h, hd, n, h') && hd !in h.live && h'.allocp != 0
    ensures Keeps(h, h', h.live)
  {
    HeapIsChosen(h, base, k, n);
    TailTiled(h, base, k, n, hd, h');
    TailUnits(h, base, k, n, hd, h');
    TailRing(h, base, k, n, hd, h');
    TailKeeps(h, base, k, n, hd, h');
  }

  lemma TailKeeps(h: State, base: int, k: nat, n: int, hd: int, h': State)
    requires Parted(h, base) && Tail(h, k, n, hd, h') && hd !in Blocks(h, base)
    ensures Keeps(h, h', h.live)
  {
    assert h.ring[k] in Nodes(h.ring);
    forall b | b in h.live
      ensures b in h.size
    {
      assert b in Blocks(h, base);
    }
  }

  lemma TakeTail(h: State, base: int, k: nat, n: int, hd: int, h': State)
    requires IsHeap(h, base) && h.allocp != 0 && Tail(h, k, n, hd, h')
    ensures TakeStep(h, base, k, n, hd, h')
  {
    TailIsHeap(h, base, k, n, hd, h');
  }

  // ----- morecore(): new units join as a live block, which is then freed -----

  ghost predicate Extension(h: State, n: int, h': State) {
    && h'.ptr == h.ptr && h'.ring == h.ring && h'.allocp == h.allocp
    && h'.membase == h.membase + n
    && h'.size == h.size[h.membase := n]
    && h'.owner == Extended(h.owner, h.membase, n)
    && h'.live == h.live + {h.membase}
  }

  lemma ExtensionIsHeap(h: State, base: int, n: int, h': State)
    requires IsHeap(h, base) && h.allocp != 0 && 1 <= n && h.membase + n < Limit(base)
    requires Extension(h, n, h')
    ensures IsHeap(h', base)
    ensures h.membase !in h.live
  {
    SpacedExtend(h.ring, h.size, base, h.membase, n);
    ExtensionTiled(h, base, n, h');
  }

  lemma ExtensionTiled(h: State, base: int, n: int, h': State)
    requires Parted(h, base) && 1 <= n && Extension(h, n, h')
    requires h.membase !in h.ring && h.membase != base
    ensures Parted(h', base) && h.membase !in h.live
  {
    TiledExtend(h.owner, h.size, Blocks(h, base), h.membase, n, h'.size);
    assert Blocks(h', base) == Blocks(h, base) + {h.membase};
  }

  lemma SpacedExtend(ring: seq<int>, size: map<int, int>, base: int, membase: int, n: int)
    requires Spaced(ring, size, base, membase) && 1 <= n && membase != base
    ensures Spaced(ring, size[membase := n], base, membase + n) && membase !in ring
  {
  }

  lemma GrowIsStep(h: State, base: int, n: int, h1: State, h': State)
    requires IsHeap(h, base) && Extension(h, n, h1) && IsHeap(h1, base)
    requires h.membase !in h.live && 1 <= n
    requires FreeStep(h1, base, h.membase, h')
    ensures GrowStep(h, base, n, h')
  {
    assert h.membase in Blocks(h1, base);
    forall u
      ensures FreeUnit(h', u) <==> FreeUnit(h, u) || h.membase <= u < h.membase + n
    {
      assert FreeUnit(h1, u) <==> FreeUnit(h, u);
    }
    LiveKept(h, base, h');
  }

  /** h as malloc() sees it once the ring exists: the first call makes the ring of base alone. */
  ghost function Started(h: State, base: int): State {
    if h.allocp == 0 then State(h.ptr[base := base], h.size[base := 0], base, h.membase, [base], {}, h.owner) else h
  }

  lemma NoBlocks(owner: map<int, int>, size: map<int, int>, membase: int)
    requires Tiled(owner, size, {}, membase)
    ensures membase == HEAP_START
  {
    if HEAP_START < membase {
      OwnerIsBlock(owner, size, {}, membase, HEAP_START);
      assert false;
    }
  }

  lemma OwnerIsBlock(owner: map<int, int>, size: map<int, int>, blocks: set<int>, membase: int, u: int)
    requires Tiled(owner, size, blocks, membase) && HEAP_START <= u < membase
    ensures u in owner && owner[u] in blocks
  {
  }

  lemma StartedIsHeap(h: State, base: int)
    requires IsHeap(h, base)
    ensures IsHeap(Started(h, base), base) && Started(h, base).allocp != 0
    ensures forall u :: FreeUnit(Started(h, base), u) <==> FreeUnit(h, u)
    ensures h.allocp == 0 ==> h.membase == HEAP_START
  {
    if h.allocp == 0 {
      assert Blocks(h, base) == {} == Blocks(Started(h, base), base);
      NoBlocks(h.owner, h.size, h.membase);
    }
  }

  // morecore() asks for whole multiples of this many units.
  const NALLOC: int := 128

  function RoundUp(n: int): int {
    NALLOC * ((n + NALLOC - 1) / NALLOC)
  }

  /** malloc() of n units gives the block at hd: the heap grows only when no free block is big enough,
      and the block is cut from the first fit after the rover. */
  ghost predicate MallocStep(h: State, base: int, n: int, hd: int, h': State) {
    exists h1, k :: Prepared(h, base, n, h1) && FirstFit(h1, n, k) && TakeStep(h1, base, k, n, hd, h')
  }

  ghost predicate Prepared(h: State, base: int, n: int, h1: State) {
    if Fits(h, n) then h1 == h else GrowStep(Started(h, base), base, RoundUp(n), h1)
  }
}
