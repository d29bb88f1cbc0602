/** The free list of the first-fit allocator (malloc.c), as a value.
    Addresses and sizes are in HEADER units. The list is circular and address-ordered;
    `ring` lists its nodes once each, lowest address first, the static node `base` included. */
module FreeList {

  // membase starts at byte 0x80010000, and a HEADER is 8 bytes.
  const HEAP_START: int := 0x1000_2000

  // Units in the 32-bit address space.
  const ADDRESS_UNITS: int := 0x2000_0000

  /** Index of the successor of node `i` in a cycle of `n` nodes. */
  function Next(i: int, n: int): int {
    if i + 1 == n then 0 else i + 1
  }

  function Prev(i: int, n: int): int {
    if i == 0 then n - 1 else i - 1
  }

  /** Number of links from node `i` to node `a` in a cycle of `n` nodes. */
  function Dist(i: int, a: int, n: int): int {
    if i <= a then a - i else a - i + n
  }

  /** Following the ptr fields from any node visits the ring in order and returns to its start. */
  ghost predicate Linked(ring: seq<int>, ptr: map<int, int>) {
    && (forall i :: 0 <= i < |ring| ==> ring[i] in ptr)
    && (forall i {:trigger ptr[ring[i]]} :: 0 <= i < |ring| ==> ptr[ring[i]] == ring[Next(i, |ring|)])
  }

  /** Addresses ascend, no two nodes touch, and every node but `base` is a non-empty block of the heap. */
  ghost predicate Spaced(ring: seq<int>, size: map<int, int>, base: int, membase: int) {
    && (forall i {:trigger ring[i]} :: 0 <= i < |ring| ==>
          && ring[i] in size
          && (if ring[i] == base then size[base] == 0
              else HEAP_START <= ring[i] && 1 <= size[ring[i]] && ring[i] + size[ring[i]] <= membase))
    && (forall i, j {:trigger ring[i], ring[j]} :: 0 <= i < j < |ring| ==> ring[i] + size[ring[i]] < ring[j])
  }

  /** Number of nodes below address p, counting from node k. */
  function CountBelow(ring: seq<int>, p: int, k: nat): (r: nat)
    requires k <= |ring|
    ensures k <= r <= |ring|
    ensures forall i :: k <= i < r ==> ring[i] < p
    ensures r < |ring| ==> p <= ring[r]
    decreases |ring| - k
  {
    if k < |ring| && ring[k] < p then CountBelow(ring, p, k + 1) else k
  }

  ghost function Nodes(ring: seq<int>): set<int> {
    set x | x in ring
  }

  // ----- Tiling of the heap by blocks -----

  /** Every unit of the heap lies in exactly one block: `owner` names it. */
  ghost predicate Tiled(owner: map<int, int>, size: map<int, int>, blocks: set<int>, membase: int) {
    && HEAP_START <= membase
    && (forall u :: u in owner <==> HEAP_START <= u < membase)
    && (forall b {:trigger b in blocks} :: b in blocks ==> b in size && 1 <= size[b] && HEAP_START <= b && b + size[b] <= membase)
    && (forall u {:trigger owner[u]} :: u in owner ==> owner[u] in blocks && owner[u] <= u < owner[u] + size[owner[u]])
    && (forall b, u {:trigger owner[u], b in blocks} :: b in blocks && u in owner && b <= u < b + size[b] ==> owner[u] == b)
  }

  /** No unit belongs to two blocks. */
  lemma BlocksDisjoint(owner: map<int, int>, size: map<int, int>, blocks: set<int>, membase: int, a: int, b: int)
    requires Tiled(owner, size, blocks, membase)
    requires a in blocks && b in blocks && a < b
    ensures a + size[a] <= b
  {
    assert owner[b] == b;
  }

  /** No block starts inside another. */
  lemma InsideIsNoBlock(owner: map<int, int>, size: map<int, int>, blocks: set<int>, membase: int, p: int, h: int)
    requires Tiled(owner, size, blocks, membase)
    requires p in blocks && p < h < p + size[p]
    ensures h !in blocks
  {
    assert owner[h] == p;
  }

  /** The blocks other than a and b have the same size in both maps. */
  ghost predicate SameSizes(size: map<int, int>, size': map<int, int>, blocks: set<int>, a: int, b: int) {
    forall c {:trigger c in blocks} :: c in blocks && c != a && c != b ==> c in size && c in size' && size'[c] == size[c]
  }

  /** Block a absorbs block b, which starts where a ends. */
  lemma TiledMerge(owner: map<int, int>, size: map<int, int>, blocks: set<int>, membase: int,
                   a: int, b: int, size': map<int, int>)
    requires Tiled(owner, size, blocks, membase)
    requires a in blocks && b in blocks && a + size[a] == b
    requires SameSizes(size, size', blocks, a, b)
    requires a in size' && size'[a] == size[a] + size[b]
    ensures Tiled(Merged(owner, a, b), size', blocks - {b}, membase)
  {
    var owner' := Merged(owner, a, b);
    forall u | u in owner'
      ensures owner'[u] in blocks - {b} && owner'[u] <= u < owner'[u] + size'[owner'[u]]
    {
      assert owner[u] in blocks;
    }
    MergeIsUnique(owner, size, blocks, membase, a, b, size');
  }

  lemma MergeIsUnique(owner: map<int, int>, size: map<int, int>, blocks: set<int>, membase: int,
                      a: int, b: int, size': map<int, int>)
    requires Tiled(owner, size, blocks, membase)
    requires a in blocks && b in blocks && a + size[a] == b
    requires SameSizes(size, size', blocks, a, b)
    requires a in size' && size'[a] == size[a] + size[b]
    ensures forall c :: c in blocks - {b} ==> c in size'
    ensures var owner' := Merged(owner, a, b);
            forall c, u {:trigger owner'[u], c in blocks - {b}} ::
              c in blocks - {b} && u in owner' && c <= u < c + size'[c] ==> owner'[u] == c
  {
    var owner' := Merged(owner, a, b);
    forall c, u | c in blocks - {b} && u in owner' && c in size' && c <= u < c + size'[c]
      ensures owner'[u] == c
    {
      assert c in blocks;
    }
  }

  function Merged(owner: map<int, int>, a: int, b: int): map<int, int> {
    map u | u in owner :: if owner[u] == b then a else owner[u]
  }

  /** Cutting the last n units off block p makes them block h. */
  lemma TiledCarve(owner: map<int, int>, size: map<int, int>, blocks: set<int>, membase: int,
                   p: int, n: int, h: int, size': map<int, int>)
    requires Tiled(owner, size, blocks, membase)
    requires p in blocks && 1 <= n < size[p] && h == p + size[p] - n
    requires SameSizes(size, size', blocks, p, h)
    requires p in size' && h in size' && size'[p] == size[p] - n && size'[h] == n
    ensures h !in blocks
    ensures Tiled(Carved(owner, h, n), size', blocks + {h}, membase)
  {
    var owner' := Carved(owner, h, n);
    InsideIsNoBlock(owner, size, blocks, membase, p, h);
    CarvedIsUnique(owner, size, blocks, membase, p, n, h, size');
    forall u | u in owner'
      ensures owner'[u] in blocks + {h} && owner'[u] <= u < owner'[u] + size'[owner'[u]]
    {
      assert owner[u] in blocks;
    }
  }

  lemma CarvedIsUnique(owner: map<int, int>, size: map<int, int>, blocks: set<int>, membase: int,
                       p: int, n: int, h: int, size': map<int, int>)
    requires Tiled(owner, size, blocks, membase)
    requires p in blocks && 1 <= n < size[p] && h == p + size[p] - n && h !in blocks
    requires SameSizes(size, size', blocks, p, h)
    requires p in size' && h in size' && size'[p] == size[p] - n && size'[h] == n
    ensures var owner' := Carved(owner, h, n);
            forall c, u {:trigger owner'[u], c in blocks} ::
              c in blocks && u in owner' && c in size' && c <= u < c + size'[c] ==> owner'[u] == c
  {
    forall c, u | c in blocks && u in owner && c in size' && c <= u < c + size'[c]
      ensures owner[u] == c && !(h <= u < h + n)
    {
      assert c in size && (c == p || size'[c] == size[c]);
      assert owner[u] == c;
    }
  }

  function Carved(owner: map<int, int>, h: int, n: int): map<int, int> {
    map u | u in owner :: if h <= u < h + n then h else owner[u]
  }

  lemma ExtendIsUnique(owner: map<int, int>, size: map<int, int>, blocks: set<int>, membase: int, n: int, size': map<int, int>)
    requires Tiled(owner, size, blocks, membase)
    requires SameSizes(size, size', blocks, membase, membase)
    requires 1 <= n && membase in size' && size'[membase] == n
    ensures forall c :: c in blocks + {membase} ==> c in size'
    ensures var owner' := Extended(owner, membase, n);
            forall c, u {:trigger owner'[u], c in blocks + {membase}} ::
              c in blocks + {membase} && u in owner' && c <= u < c + size'[c] ==> owner'[u] == c
  {
    var owner' := Extended(owner, membase, n);
    forall c, u | c in blocks + {membase} && u in owner' && c in size' && c <= u < c + size'[c]
      ensures owner'[u] == c
    {
      if u in owner {
        assert c in blocks && owner[u] == c;
      } else {
        assert c !in blocks;
      }
    }
  }

  /** The n units from membase join the heap as one block. */
  lemma TiledExtend(owner: map<int, int>, size: map<int, int>, blocks: set<int>, membase: int, n: int, size': map<int, int>)
    requires Tiled(owner, size, blocks, membase)
    requires SameSizes(size, size', blocks, membase, membase)
    requires 1 <= n && membase in size' && size'[membase] == n
    ensures membase !in blocks
    ensures Tiled(Extended(owner, membase, n), size', blocks + {membase}, membase + n)
  {
    var owner' := Extended(owner, membase, n);
    forall u | u in owner'
      ensures owner'[u] in blocks + {membase} && owner'[u] <= u < owner'[u] + size'[owner'[u]]
    {
      if u in owner {
        assert owner[u] in blocks;
      }
    }
    ExtendIsUnique(owner, size, blocks, membase, n, size');
  }

  function Extended(owner: map<int, int>, up: int, n: int): map<int, int> {
    map u | HEAP_START <= u < up + n :: if u in owner then owner[u] else up
  }

  // ----- Surgery on the ring -----

  /** r is ring with p put in as node k. */
  ghost predicate Inserted(ring: seq<int>, k: nat, p: int, r: seq<int>) {
    && k <= |ring| && |r| == |ring| + 1 && r[k] == p
    && (forall i {:trigger r[i]} :: 0 <= i < k ==> r[i] == ring[i])
    && (forall i {:trigger r[i]} :: k < i < |r| ==> r[i] == ring[i - 1])
  }

  /** r is ring without node k. */
  ghost predicate Removed(ring: seq<int>, k: nat, r: seq<int>) {
    && k < |ring| && |r| == |ring| - 1
    && (forall i {:trigger r[i]} :: 0 <= i < k ==> r[i] == ring[i])
    && (forall i {:trigger r[i]} :: k <= i < |r| ==> r[i] == ring[i + 1])
  }

  lemma SplicedIn(ring: seq<int>, k: nat, p: int)
    requires k <= |ring|
    ensures Inserted(ring, k, p, ring[..k] + [p] + ring[k..])
  {
  }

  lemma SplicedOut(ring: seq<int>, k: nat)
    requires k < |ring|
    ensures Removed(ring, k, ring[..k] + ring[k + 1..])
  {
  }

  /** Distinct nodes: what Linked needs so that one pointer write moves one link. */
  ghost predicate Distinct(ring: seq<int>) {
    forall i, j {:trigger ring[i], ring[j]} :: 0 <= i < j < |ring| ==> ring[i] != ring[j]
  }

  lemma SpacedIsDistinct(ring: seq<int>, size: map<int, int>, base: int, membase: int)
    requires Spaced(ring, size, base, membase)
    ensures Distinct(ring)
  {
  }

  /** The links out of all nodes but i0 and i1 are the same in both maps. */
  ghost predicate SameLinks(ring: seq<int>, ptr: map<int, int>, ptr': map<int, int>, i0: int, i1: int) {
    && (forall j {:trigger ring[j]} :: 0 <= j < |ring| && j != i0 && j != i1 ==> ring[j] in ptr && ring[j] in ptr')
    && (forall j {:trigger ptr'[ring[j]]} :: 0 <= j < |ring| && j != i0 && j != i1 ==> ptr'[ring[j]] == ptr[ring[j]])
  }

  lemma LinkInsert(ring: seq<int>, ptr: map<int, int>, k: nat, p: int, r: seq<int>, ptr': map<int, int>)
    requires Linked(ring, ptr) && |ring| > 0 && Inserted(ring, k, p, r)
    requires SameLinks(ring, ptr, ptr', Prev(k, |ring|), Prev(k, |ring|))
    requires var q := ring[Prev(k, |ring|)];
             p in ptr' && ptr'[p] == ptr[q] && q in ptr' && ptr'[q] == p
    ensures Linked(r, ptr')
  {
    forall i | 0 <= i < |r|
      ensures r[i] in ptr' && ptr'[r[i]] == r[Next(i, |r|)]
    {
      LinkInsertAt(ring, ptr, k, p, r, ptr', i);
    }
  }

  /** The link out of node i of r: one of the old ones, moved, or one of the two new ones. */
  lemma LinkInsertAt(ring: seq<int>, ptr: map<int, int>, k: nat, p: int, r: seq<int>, ptr': map<int, int>, i: nat)
    requires Linked(ring, ptr) && |ring| > 0 && Inserted(ring, k, p, r) && i < |r|
    requires SameLinks(ring, ptr, ptr', Prev(k, |ring|), Prev(k, |ring|))
    requires var q := ring[Prev(k, |ring|)];
             p in ptr' && ptr'[p] == ptr[q] && q in ptr' && ptr'[q] == p
    ensures r[i] in ptr' && ptr'[r[i]] == r[Next(i, |r|)]
  {
    if i == k {
      LinkAt(ring, ptr, Prev(k, |ring|));
    } else {
      var j := if i < k then i else i - 1;
      assert r[i] == ring[j];
      if j != Prev(k, |ring|) {
        OldLink(ring, ptr, ptr', Prev(k, |ring|), Prev(k, |ring|), j);
      }
    }
  }

  lemma LinkAt(ring: seq<int>, ptr: map<int, int>, i: int)
    requires Linked(ring, ptr) && 0 <= i < |ring|
    ensures ring[i] in ptr && ptr[ring[i]] == ring[Next(i, |ring|)] && ptr[ring[i]] in ptr
    ensures Prev(Next(i, |ring|), |ring|) == i
  {
  }

  lemma OldLink(ring: seq<int>, ptr: map<int, int>, ptr': map<int, int>, i0: int, i1: int, i: int)
    requires Linked(ring, ptr) && SameLinks(ring, ptr, ptr', i0, i1) && 0 <= i < |ring| && i != i0 && i != i1
    ensures ring[i] in ptr' && ptr'[ring[i]] == ring[Next(i, |ring|)]
  {
  }

  lemma LinkRemove(ring: seq<int>, ptr: map<int, int>, k: nat, r: seq<int>, ptr': map<int, int>)
    requires Linked(ring, ptr) && Removed(ring, k, r) && |ring| >= 2
    requires SameLinks(ring, ptr, ptr', k, Prev(k, |ring|))
    requires var q := ring[Prev(k, |ring|)];
             q in ptr' && ptr'[q] == ptr[ring[k]]
    ensures Linked(r, ptr')
  {
    forall i | 0 <= i < |r|
      ensures r[i] in ptr' && ptr'[r[i]] == r[Next(i, |r|)]
    {
      LinkRemoveAt(ring, ptr, k, r, ptr', i);
    }
  }

  lemma LinkRemoveAt(ring: seq<int>, ptr: map<int, int>, k: nat, r: seq<int>, ptr': map<int, int>, i: nat)
    requires Linked(ring, ptr) && Removed(ring, k, r) && |ring| >= 2 && i < |r|
    requires SameLinks(ring, ptr, ptr', k, Prev(k, |ring|))
    requires var q := ring[Prev(k, |ring|)];
             q in ptr' && ptr'[q] == ptr[ring[k]]
    ensures r[i] in ptr' && ptr'[r[i]] == r[Next(i, |r|)]
  {
    var j := if i < k then i else i + 1;
    RemovedNext(ring, k, r, i);
    if j == Prev(k, |ring|) {
      LinkAt(ring, ptr, k);
    } else {
      OldLink(ring, ptr, ptr', k, Prev(k, |ring|), j);
    }
  }

  /** Node i of r and the one after it, in ring. */
  lemma RemovedNext(ring: seq<int>, k: nat, r: seq<int>, i: nat)
    requires Removed(ring, k, r) && i < |r|
    ensures var n, j := |ring|, if i < k then i else i + 1;
            r[i] == ring[j] && j != k && r[Next(i, |r|)] == ring[if j == Prev(k, n) then Next(k, n) else Next(j, n)]
  {
  }

  /** Node p takes the place of node k. */
  lemma LinkReplace(ring: seq<int>, ptr: map<int, int>, k: nat, p: int, ptr': map<int, int>)
    requires Linked(ring, ptr) && k < |ring| && |ring| >= 2
    requires SameLinks(ring, ptr, ptr', k, Prev(k, |ring|))
    requires var q := ring[Prev(k, |ring|)];
             p in ptr' && ptr'[p] == ptr[ring[k]] && q in ptr' && ptr'[q] == p
    ensures Linked(ring[k := p], ptr')
  {
    var n := |ring|;
    var r := ring[k := p];
    forall i | 0 <= i < |r|
      ensures r[i] in ptr' && ptr'[r[i]] == r[Next(i, |r|)]
    {
      assert ptr[ring[i]] == ring[Next(i, n)];
    }
  }

  // The same, for the pointer writes of free(); q is the node before place k.

  lemma WriteInsert(ring: seq<int>, ptr: map<int, int>, k: nat, p: int, r: seq<int>)
    requires Linked(ring, ptr) && Distinct(ring) && |ring| > 0 && Inserted(ring, k, p, r) && p !in ring
    ensures var q := ring[Prev(k, |ring|)]; Linked(r, ptr[p := ptr[q]][q := p])
  {
    var q := ring[Prev(k, |ring|)];
    LinkInsert(ring, ptr, k, p, r, ptr[p := ptr[q]][q := p]);
  }

  lemma WriteReplace(ring: seq<int>, ptr: map<int, int>, k: nat, p: int)
    requires Linked(ring, ptr) && Distinct(ring) && k < |ring| && |ring| >= 2 && p !in ring
    ensures var q := ring[Prev(k, |ring|)]; Linked(ring[k := p], ptr[p := ptr[ring[k]]][q := p])
  {
    var q := ring[Prev(k, |ring|)];
    LinkReplace(ring, ptr, k, p, ptr[p := ptr[ring[k]]][q := p]);
  }

  lemma WriteRemove(ring: seq<int>, ptr: map<int, int>, k: nat, p: int, r: seq<int>)
    requires Linked(ring, ptr) && Distinct(ring) && Removed(ring, k, r) && |ring| >= 2 && p !in ring
    ensures var q := ring[Prev(k, |ring|)]; Linked(r, ptr[p := ptr[ring[k]]][q := ptr[ring[k]]])
  {
    var q := ring[Prev(k, |ring|)];
    LinkRemove(ring, ptr, k, r, ptr[p := ptr[ring[k]]][q := ptr[ring[k]]]);
  }

  lemma WriteSame(ring: seq<int>, ptr: map<int, int>, p: int, q: int)
    requires Linked(ring, ptr) && q in ring && p !in ring
    ensures Linked(ring, ptr[p := ptr[q]][q := ptr[q]])
  {
    LinkedExt(ring, ptr, ptr[p := ptr[q]][q := ptr[q]]);
  }

  /** Pointer writes outside the ring, or that write what was there, leave it linked. */
  lemma LinkedExt(ring: seq<int>, ptr: map<int, int>, ptr': map<int, int>)
    requires Linked(ring, ptr) && SameLinks(ring, ptr, ptr', -1, -1)
    ensures Linked(ring, ptr')
  {
  }

  lemma NodesInserted(ring: seq<int>, k: nat, p: int, r: seq<int>)
    requires Inserted(ring, k, p, r)
    ensures Nodes(r) == Nodes(ring) + {p}
  {
    forall x | x in ring || x == p
      ensures x in r
    {
      if x == p {
        assert r[k] == x;
      } else {
        var i :| 0 <= i < |ring| && ring[i] == x;
        assert r[if i < k then i else i + 1] == x;
      }
    }
  }

  lemma NodesRemoved(ring: seq<int>, k: nat, r: seq<int>)
    requires Removed(ring, k, r) && Distinct(ring)
    ensures Nodes(r) == Nodes(ring) - {ring[k]}
  {
    forall x | x in ring && x != ring[k]
      ensures x in r
    {
      var i :| 0 <= i < |ring| && ring[i] == x;
      assert r[if i < k then i else i - 1] == x;
    }
    assert forall i :: 0 <= i < |r| ==> r[i] != ring[k];
  }

  lemma NodesReplaced(ring: seq<int>, k: nat, p: int)
    requires k < |ring| && Distinct(ring) && p !in ring
    ensures Nodes(ring[k := p]) == Nodes(ring) - {ring[k]} + {p}
  {
    var r := ring[k := p];
    assert r[k] == p;
    forall x | x in ring && x != ring[k]
      ensures x in r
    {
      var i :| 0 <= i < |ring| && ring[i] == x;
      assert r[i] == x;
    }
    assert forall i :: 0 <= i < |r| && i != k ==> r[i] != ring[k];
  }

  // ----- Where a block of the heap fits into the ring -----

  /** Block p of the heap lies between nodes k - 1 and k, overlapping neither. */
  ghost predicate Between(ring: seq<int>, size: map<int, int>, membase: int, k: nat, p: int) {
    && k <= |ring|
    && p in size && HEAP_START <= p && 1 <= size[p] && p + size[p] <= membase
    && (forall i {:trigger ring[i]} :: 0 <= i < |ring| ==> ring[i] in size)
    && (forall i {:trigger ring[i]} :: 0 <= i < k ==> ring[i] + size[ring[i]] <= p)
    && (forall i {:trigger ring[i]} :: k <= i < |ring| ==> p + size[p] <= ring[i])
  }

  /** The node below p ends where p starts. */
  ghost predicate TouchesLower(ring: seq<int>, size: map<int, int>, k: nat, p: int)
    requires k <= |ring| && forall i :: 0 <= i < |ring| ==> ring[i] in size
  {
    0 < k && ring[k - 1] + size[ring[k - 1]] == p
  }

  /** The node above p starts where p ends. */
  ghost predicate TouchesUpper(ring: seq<int>, size: map<int, int>, k: nat, p: int)
    requires k <= |ring| && p in size
  {
    k < |ring| && p + size[p] == ring[k]
  }

  lemma SpacedInsert(ring: seq<int>, size: map<int, int>, base: int, membase: int, k: nat, p: int, r: seq<int>)
    requires Spaced(ring, size, base, membase) && Between(ring, size, membase, k, p) && p != base
    requires !TouchesLower(ring, size, k, p) && !TouchesUpper(ring, size, k, p)
    requires Inserted(ring, k, p, r)
    ensures Spaced(r, size, base, membase)
  {
    forall i, j | 0 <= i < j < |r|
      ensures r[i] in size && r[i] + size[r[i]] < r[j]
    {
      if i == k {
        assert k < j - 1 ==> ring[k] < ring[j - 1];
      } else if j == k {
        assert i < k - 1 ==> ring[i] + size[ring[i]] < ring[k - 1];
      }
    }
  }

  /** Node p absorbs node k above it and takes its place. */
  lemma SpacedAbsorbUpper(ring: seq<int>, size: map<int, int>, base: int, membase: int, k: nat, p: int)
    requires Spaced(ring, size, base, membase) && Between(ring, size, membase, k, p) && p != base && p !in ring
    requires !TouchesLower(ring, size, k, p) && TouchesUpper(ring, size, k, p) && ring[k] != base
    ensures Spaced(ring[k := p], size[p := size[p] + size[ring[k]]], base, membase)
  {
    var r, size' := ring[k := p], size[p := size[p] + size[ring[k]]];
    forall i, j | 0 <= i < j < |r|
      ensures r[i] in size' && r[i] + size'[r[i]] < r[j]
    {
      if i == k {
        assert ring[k] + size[ring[k]] < ring[j];
      } else if j == k {
        assert i < k - 1 ==> ring[i] + size[ring[i]] < ring[k - 1];
      }
    }
  }

  /** Node k - 1 absorbs p above it. */
  lemma SpacedGrowLower(ring: seq<int>, size: map<int, int>, base: int, membase: int, k: nat, p: int, size': map<int, int>)
    requires Spaced(ring, size, base, membase) && Between(ring, size, membase, k, p) && p !in ring
    requires TouchesLower(ring, size, k, p) && !TouchesUpper(ring, size, k, p) && ring[k - 1] != base
    requires size' == size[ring[k - 1] := size[ring[k - 1]] + size[p]]
    ensures Spaced(ring, size', base, membase)
  {
    forall i, j | 0 <= i < j < |ring|
      ensures ring[i] in size' && ring[i] + size'[ring[i]] < ring[j]
    {
      assert i != k - 1 ==> ring[i] != ring[k - 1];
      if i == k - 1 {
        assert k < j ==> ring[k] < ring[j];
      }
    }
  }

  /** Node k - 1 absorbs p and node k. */
  lemma SpacedBridge(ring: seq<int>, size: map<int, int>, base: int, membase: int, k: nat, p: int,
                     r: seq<int>, size': map<int, int>)
    requires Spaced(ring, size, base, membase) && Between(ring, size, membase, k, p) && p !in ring
    requires TouchesLower(ring, size, k, p) && TouchesUpper(ring, size, k, p)
    requires ring[k - 1] != base && ring[k] != base
    requires Removed(ring, k, r)
    requires forall i :: 0 <= i < |ring| && i != k - 1 ==> ring[i] in size' && size'[ring[i]] == size[ring[i]]
    requires ring[k - 1] in size' && size'[ring[k - 1]] == size[ring[k - 1]] + size[p] + size[ring[k]]
    ensures Spaced(r, size', base, membase)
  {
    forall i, j | 0 <= i < j < |r|
      ensures r[i] in size' && r[i] + size'[r[i]] < r[j]
    {
      BridgeGap(ring, size, base, membase, k, p, r, size', i, j);
    }
  }

  /** The gap between nodes i and j of r. */
  lemma BridgeGap(ring: seq<int>, size: map<int, int>, base: int, membase: int, k: nat, p: int,
                  r: seq<int>, size': map<int, int>, i: nat, j: nat)
    requires Spaced(ring, size, base, membase) && Between(ring, size, membase, k, p)
    requires TouchesLower(ring, size, k, p) && TouchesUpper(ring, size, k, p)
    requires Removed(ring, k, r) && i < j < |r|
    requires i != k - 1 ==> r[i] in size && r[i] in size' && size'[r[i]] == size[r[i]]
    requires ring[k - 1] in size' && size'[ring[k - 1]] == size[ring[k - 1]] + size[p] + size[ring[k]]
    ensures r[i] in size' && r[i] + size'[r[i]] < r[j]
  {
    var i', j' := if i < k then i else i + 1, if j < k then j else j + 1;
    assert ring[i'] + size[ring[i']] < ring[j'];
    if i == k - 1 {
      assert ring[k] + size[ring[k]] < ring[j'];
    }
  }

  // ----- What malloc() does to the ring -----

  lemma WriteUnlink(ring: seq<int>, ptr: map<int, int>, k: nat, r: seq<int>)
    requires Linked(ring, ptr) && Distinct(ring) && Removed(ring, k, r) && |ring| >= 2
    ensures var q := ring[Prev(k, |ring|)]; Linked(r, ptr[q := ptr[ring[k]]])
  {
    var q := ring[Prev(k, |ring|)];
    LinkRemove(ring, ptr, k, r, ptr[q := ptr[ring[k]]]);
  }

  lemma SpacedRemove(ring: seq<int>, size: map<int, int>, base: int, membase: int, k: nat, r: seq<int>)
    requires Spaced(ring, size, base, membase) && Removed(ring, k, r)
    ensures Spaced(r, size, base, membase)
  {
    forall i, j | 0 <= i < j < |r|
      ensures r[i] in size && r[i] + size[r[i]] < r[j]
    {
      var i', j' := if i < k then i else i + 1, if j < k then j else j + 1;
      assert ring[i'] + size[ring[i']] < ring[j'];
    }
  }

  lemma SpacedShrink(ring: seq<int>, size: map<int, int>, base: int, membase: int, k: nat, n: int, h: int)
    requires Spaced(ring, size, base, membase) && Distinct(ring)
    requires k < |ring| && ring[k] != base && 1 <= n < size[ring[k]] && h !in ring && h != base
    ensures Spaced(ring, size[ring[k] := size[ring[k]] - n][h := n], base, membase)
  {
    var size' := size[ring[k] := size[ring[k]] - n][h := n];
    forall i | 0 <= i < |ring|
      ensures ring[i] in size' && size'[ring[i]] == if i == k then size[ring[k]] - n else size[ring[i]]
    {
    }
  }
}
