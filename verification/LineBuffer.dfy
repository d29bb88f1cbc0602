/** The reference model of the one-line cache (class CacheRefModel in cache_ref.cpp): every access fetches the
    aligned 64-byte line into a buffer of 16 words; a store writes the buffer and the memory behind it. */
module LineBuffer {
  import opened CBus
  import opened BlockMemory
  import opened Common

  const LINE_WORDS: int := 16

  /** Buffer and memory. */
  datatype Cache = Cache(buffer: seq<Word>, words: seq<Word>)

  /** The whole line of addr lies in a memory of n words. */
  predicate InMemory(addr: int, n: int) {
    0 <= addr && addr / 64 * 64 + 64 <= 4 * n
  }

  /** The index of addr in its line. */
  function Slot(addr: int): int {
    addr % 64 / 4
  }

  function Line(words: seq<Word>, addr: int): (l: seq<Word>)
    requires InMemory(addr, |words|)
    ensures |l| == LINE_WORDS
  {
    words[addr / 64 * LINE_WORDS..addr / 64 * LINE_WORDS + LINE_WORDS]
  }

  lemma SlotInLine(addr: int)
    ensures 0 <= Slot(addr) < LINE_WORDS && addr / 4 == addr / 64 * LINE_WORDS + Slot(addr)
  {
    var q, r := addr / 64, addr % 64;
    assert addr == 64 * q + r;
    assert addr / 4 == 16 * q + r / 4;
  }

  // ----- One access, as the source performs it -----

  function Fetched(c: Cache, addr: int): Cache
    requires InMemory(addr, |c.words|)
  {
    c.(buffer := Line(c.words, addr))
  }

  function Load(c: Cache, addr: int): (Cache, Word)
    requires InMemory(addr, |c.words|)
  {
    SlotInLine(addr);
    (Fetched(c, addr), Fetched(c, addr).buffer[Slot(addr)])
  }

  function Store(c: Cache, addr: int, strobe: Strobe, data: Word): Cache
    requires InMemory(addr, |c.words|)
  {
    SlotInLine(addr);
    var c1, mask := Fetched(c, addr), STROBE_TO_MASK[strobe];
    Cache(c1.buffer[Slot(addr) := Merge(c1.buffer[Slot(addr)], data, mask)], StoreWord(c.words, addr, data, mask))
  }

  lemma StoreIs(c: Cache, addr: int, i: int, strobe: Strobe, data: Word, c': Cache)
    requires InMemory(addr, |c.words|) && i == Slot(addr) && 0 <= i < LINE_WORDS
    requires var line, mask := Line(c.words, addr), STROBE_TO_MASK[strobe];
             c'.buffer == line[i := Merge(line[i], data, mask)] && c'.words == StoreWord(c.words, addr, data, mask)
    ensures c' == Store(c, addr, strobe, data)
  {
  }

  lemma OffsetZero(addr: int)
    requires 0 <= addr < TWO_32
    ensures Relative(addr, 0) == addr
  {
  }

  /** The model object of the source, updated in place. */
  class CacheRefModel {
    const buffer: array<Word>
    const mem: Memory

    ghost predicate Valid()
      reads this, mem
    {
      mem.Valid() && mem.offset == 0 && buffer.Length == LINE_WORDS && buffer != mem.mem && buffer != mem.saved
    }

    function View(): Cache
      reads this, mem, mem.mem, buffer
    {
      Cache(buffer[..], mem.mem[..])
    }

    constructor (memorySize: nat)
      requires memorySize % 4 == 0 && memorySize <= TWO_32
      ensures Valid() && fresh(buffer) && fresh(mem) && fresh(mem.mem)
      ensures View().words == seq(memorySize / 4, _ => 0)
    {
      buffer := new Word[LINE_WORDS](_ => 0);
      mem := new Memory(memorySize, 0, []);
    }

    method Fetch(addr: int)
      requires Valid() && InMemory(addr, mem.mem.Length)
      modifies buffer
      ensures View() == Fetched(old(View()), addr)
    {
      var start := addr / 64 * 64;
      var i := 0;
      while i < LINE_WORDS
        invariant 0 <= i <= LINE_WORDS && mem.mem[..] == old(mem.mem[..])
        invariant forall k :: 0 <= k < i ==> buffer[k] == mem.mem[addr / 64 * LINE_WORDS + k]
      {
        assert (start + 4 * i) / 4 == addr / 64 * LINE_WORDS + i;
        buffer[i] := mem.Load(start + 4 * i);
        i := i + 1;
      }
    }

    method LoadWord(addr: int) returns (value: Word)
      requires Valid() && InMemory(addr, mem.mem.Length)
      modifies buffer
      ensures (View(), value) == Load(old(View()), addr)
    {
      SlotInLine(addr);
      Fetch(addr);
      value := buffer[addr % 64 / 4];
    }

    method StoreWord(addr: int, strobe: Strobe, data: Word)
      requires Valid() && InMemory(addr, mem.mem.Length)
      modifies buffer, mem.mem
      ensures View() == Store(old(View()), addr, strobe, data)
    {
      ghost var c := View();
      SlotInLine(addr);
      Fetch(addr);
      var mask := STROBE_TO_MASK[strobe];
      MergeInto(addr % 64 / 4, data, mask);
      mem.Store(addr, data, mask);
      OffsetZero(addr);
      StoreIs(c, addr, Slot(addr), strobe, data, View());
    }

    /** The store to the buffer. */
    method MergeInto(i: nat, data: Word, mask: Word)
      requires Valid() && i < buffer.Length
      modifies buffer
      ensures View() == old(View()).(buffer := old(buffer[..])[i := Merge(old(buffer[..])[i], data, mask)])
    {
      buffer[i] := Merge(buffer[i], data, mask);
    }
  }

  // ----- Any sequence of accesses -----

  datatype Access = LoadAt(addr: int) | StoreAt(addr: int, strobe: Strobe, data: Word)

  predicate AllInMemory(ops: seq<Access>, n: int) {
    forall i :: 0 <= i < |ops| ==> InMemory(ops[i].addr, n)
  }

  /** With the buffer: the final state and the values loaded. */
  function Run(c: Cache, ops: seq<Access>): (r: (Cache, seq<Word>))
    requires AllInMemory(ops, |c.words|)
    ensures |r.0.words| == |c.words|
    decreases |ops|
  {
    if ops == [] then (c, [])
    else
      match ops[0]
      case LoadAt(addr) =>
        var (c', value) := Load(c, addr);
        var (c'', values) := Run(c', ops[1..]);
        (c'', [value] + values)
      case StoreAt(addr, strobe, data) => Run(Store(c, addr, strobe, data), ops[1..])
  }

  /** Without it. */
  function RunPlain(words: seq<Word>, ops: seq<Access>): (r: (seq<Word>, seq<Word>))
    requires AllInMemory(ops, |words|)
    ensures |r.0| == |words|
    decreases |ops|
  {
    if ops == [] then (words, [])
    else
      match ops[0]
      case LoadAt(addr) =>
        var (words', values) := RunPlain(words, ops[1..]);
        (words', [words[addr / 4]] + values)
      case StoreAt(addr, strobe, data) =>
        RunPlain(BlockMemory.StoreWord(words, addr, data, STROBE_TO_MASK[strobe]), ops[1..])
  }

  /** One access: the buffer ends up as the line touched, and the memory as it would without the buffer. */
  lemma LoadIsCoherent(c: Cache, addr: int)
    requires InMemory(addr, |c.words|)
    ensures var (c', value) := Load(c, addr);
            value == c.words[addr / 4] && c'.words == c.words && c'.buffer == Line(c.words, addr)
  {
    SlotInLine(addr);
  }

  lemma StoreIsCoherent(c: Cache, addr: int, strobe: Strobe, data: Word)
    requires InMemory(addr, |c.words|)
    ensures var c' := Store(c, addr, strobe, data);
            && c'.words == BlockMemory.StoreWord(c.words, addr, data, STROBE_TO_MASK[strobe])
            && |c'.words| == |c.words| && c'.buffer == Line(c'.words, addr)
  {
    SlotInLine(addr);
    var c' := Store(c, addr, strobe, data);
    forall k | 0 <= k < LINE_WORDS
      ensures c'.buffer[k] == Line(c'.words, addr)[k]
    {
      assert Line(c.words, addr)[k] == c.words[addr / 64 * LINE_WORDS + k];
    }
  }

  /** Running ops with the buffer gives the values and the memory of plain memory, and leaves the line touched
      last in the buffer. */
  ghost predicate Coherent(c: Cache, ops: seq<Access>)
    requires AllInMemory(ops, |c.words|)
  {
    var (c', values) := Run(c, ops);
    && (c'.words, values) == RunPlain(c.words, ops)
    && c'.buffer == if ops == [] then c.buffer else Line(c'.words, ops[|ops| - 1].addr)
  }

  lemma LoadFirst(c: Cache, ops: seq<Access>)
    requires AllInMemory(ops, |c.words|) && ops != [] && ops[0].LoadAt?
    ensures Coherent(c, ops)
    decreases |ops|, 0
  {
    LoadIsCoherent(c, ops[0].addr);
    RunIsCoherent(Load(c, ops[0].addr).0, ops[1..]);
  }

  lemma StoreFirst(c: Cache, ops: seq<Access>)
    requires AllInMemory(ops, |c.words|) && ops != [] && ops[0].StoreAt?
    ensures Coherent(c, ops)
    decreases |ops|, 0
  {
    var op := ops[0];
    var c' := Store(c, op.addr, op.strobe, op.data);
    StoreIsCoherent(c, op.addr, op.strobe, op.data);
    StoreUnfolds(c, ops, c');
    RunIsCoherent(c', ops[1..]);
    Passed(c, ops, c');
  }

  lemma StoreUnfolds(c: Cache, ops: seq<Access>, c': Cache)
    requires AllInMemory(ops, |c.words|) && ops != [] && ops[0].StoreAt?
    requires c' == Store(c, ops[0].addr, ops[0].strobe, ops[0].data) && |c'.words| == |c.words|
    requires c'.words == BlockMemory.StoreWord(c.words, ops[0].addr, ops[0].data, STROBE_TO_MASK[ops[0].strobe])
    ensures Run(c, ops) == Run(c', ops[1..]) && RunPlain(c.words, ops) == RunPlain(c'.words, ops[1..])
  {
  }

  lemma Passed(c: Cache, ops: seq<Access>, c': Cache)
    requires AllInMemory(ops, |c.words|) && ops != [] && |c'.words| == |c.words|
    requires Run(c, ops) == Run(c', ops[1..]) && RunPlain(c.words, ops) == RunPlain(c'.words, ops[1..])
    requires c'.buffer == Line(c'.words, ops[0].addr) && Coherent(c', ops[1..])
    ensures Coherent(c, ops)
  {
  }

  /** After any sequence of loads and strobed stores: every load has returned what plain memory holds, the memory
      is that of plain memory, and the buffer is the line touched last. */
  lemma {:induction false} RunIsCoherent(c: Cache, ops: seq<Access>)
    requires AllInMemory(ops, |c.words|)
    ensures Coherent(c, ops)
    decreases |ops|, 1
  {
    if ops != [] {
      if ops[0].LoadAt? {
        LoadFirst(c, ops);
      } else {
        StoreFirst(c, ops);
      }
    }
  }
}
