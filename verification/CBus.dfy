/** The CBus memory device (cbus_device.cpp): a two-phase state machine that serves wrapping bursts and may be
    disabled in any cycle. The memory behind it is a value of type M, reached through load and store. */
module CBus {
  import opened Axi
  import opened Common

  type Strobe = s: int | 0 <= s < 16 witness 0

  const STROBE_TO_MASK: seq<Word> := [
    0x00000000, 0x000000ff, 0x0000ff00, 0x0000ffff,
    0x00ff0000, 0x00ff00ff, 0x00ffff00, 0x00ffffff,
    0xff000000, 0xff0000ff, 0xff00ff00, 0xff00ffff,
    0xffff0000, 0xffff00ff, 0xffffff00, 0xffffffff]

  /** load may change the memory (a FIFO, say); store takes address, data and 32-bit mask. */
  datatype Bus<!M> = Bus(load: (M, int) -> (M, Word), store: (M, int, Word, Word) -> M, reset: M -> M)

  datatype Req = Req(valid: bool, isWrite: bool, size: int, addr: int, strobe: Strobe, data: Word, len: int)

  datatype Resp = Resp(ready: bool, last: bool, data: Word)

  const NO_RESP: Resp := Resp(false, false, 0)

  datatype Dev<M> = Dev(mem: M, enable: bool, strobe: Strobe, data: Word, tx: Txn, ntx: Txn)

  // ----- One cycle: response, request, clock edge -----

  function EvalResp<M>(bus: Bus<M>, d: Dev<M>): (Dev<M>, Resp) {
    if !d.enable || !d.tx.busy then (d, NO_RESP)
    else if d.tx.isWrite then (d, Resp(true, Last(d.tx), 0))
    else
      var (mem, data) := bus.load(d.mem, d.tx.addr);
      (d.(mem := mem), Resp(true, Last(d.tx), data))
  }

  /** The sanity checks on a request during a transaction. */
  predicate Complies(tx: Txn, req: Req)
    requires Encodable(req.addr, req.size, req.len)
  {
    && req.valid
    && req.isWrite == tx.isWrite
    && Bytes(req.size) == tx.numberBytes
    && req.addr == tx.start
    && req.len + 1 == tx.burstLength
  }

  function EvalReq<M>(d: Dev<M>, req: Req): Dev<M>
    requires Encodable(req.addr, req.size, req.len)
  {
    if !d.enable then d
    else if d.tx.busy then
      d.(strobe := req.strobe, data := req.data, ntx := if Last(d.tx) then IDLE else Advance(d.ntx))
    else if req.valid then
      d.(ntx := Begin(d.ntx, req.addr, req.size, req.len).(busy := true, isWrite := req.isWrite))
    else d
  }

  /** The clock edge; next is the random choice of whether the coming cycle is enabled. */
  function Edge<M>(bus: Bus<M>, d: Dev<M>, next: bool): Dev<M> {
    if !d.enable then d.(enable := next)
    else if d.tx.busy && d.tx.isWrite then
      d.(mem := bus.store(d.mem, d.tx.addr, d.data, STROBE_TO_MASK[d.strobe]),
         strobe := 0, data := 0, tx := d.ntx, enable := next)
    else
      d.(tx := d.ntx, enable := next)
  }

  /** The device object of the source, updated in place. */
  class CBusDevice<M> {
    const bus: Bus<M>
    var mem: M
    var enable: bool
    var strobe: Strobe
    var data: Word
    const tx: AXITransaction
    const ntx: AXITransaction

    ghost predicate Valid()
      reads this
    {
      tx != ntx
    }

    function View(): Dev<M>
      reads this, tx, ntx
    {
      Dev(mem, enable, strobe, data, tx.View(), ntx.View())
    }

    constructor (bus: Bus<M>, mem: M)
      ensures Valid() && fresh(tx) && fresh(ntx) && this.bus == bus
      ensures View() == Dev(mem, true, 0, 0, IDLE, IDLE)
    {
      this.bus, this.mem, enable, strobe, data := bus, mem, true, 0, 0;
      tx := new AXITransaction();
      ntx := new AXITransaction();
    }

    method Reset()
      requires Valid()
      modifies this, tx, ntx
      ensures Valid()
      ensures View() == Dev(bus.reset(old(mem)), old(enable), 0, 0, IDLE, IDLE)
    {
      mem := bus.reset(mem);
      tx.Reset();
      ntx.Reset();
      strobe, data := 0, 0;
    }

    method EvalResponse() returns (resp: Resp)
      requires Valid()
      modifies this
      ensures Valid() && (View(), resp) == EvalResp(bus, old(View()))
    {
      if !enable {
        return NO_RESP;
      }
      if tx.busy {
        var value: Word := 0;
        if !tx.isWrite {
          var addr := tx.addr;
          var (mem', loaded) := bus.load(mem, addr);
          mem, value := mem', loaded;
        }
        return Resp(true, tx.n == tx.burstLength, value);
      } else {
        return NO_RESP;
      }
    }

    method EvalRequest(req: Req)
      requires Valid() && Encodable(req.addr, req.size, req.len)
      requires enable && tx.busy ==> Complies(tx.View(), req)
      modifies this, ntx
      ensures Valid() && View() == EvalReq(old(View()), req)
    {
      if !enable {
        return;
      }
      if tx.busy {
        strobe, data := req.strobe, req.data;
        if tx.n == tx.burstLength {
          ntx.Reset();
        } else {
          ntx.Sync();
        }
      } else if req.valid {
        ntx.Init(req.addr, req.size, req.len);
        ntx.busy := true;
        ntx.isWrite := req.isWrite;
      }
    }

    method Sync(next: bool)
      requires Valid()
      modifies this, tx
      ensures Valid() && View() == Edge(bus, old(View()), next)
    {
      if enable {
        if tx.busy && tx.isWrite {
          var addr := tx.addr;
          var mask := STROBE_TO_MASK[strobe];
          mem := bus.store(mem, addr, data, mask);
          strobe, data := 0, 0;
        }
        tx.CopyFrom(ntx);
      }
      enable := next;
    }
  }
}

/** A compliant master driving the device, and what the two compute together. */
module Bursts {
  import opened Axi
  import opened CBus
  import opened Common

  /** A whole transaction; beats holds strobe and data for each of its len + 1 beats. */
  datatype Burst = Burst(isWrite: bool, addr: int, size: int, len: int, beats: seq<(Strobe, Word)>)

  predicate GoodBurst(b: Burst) {
    Encodable(b.addr, b.size, b.len) && |b.beats| == b.len + 1
  }

  predicate GoodBursts(bs: seq<Burst>) {
    forall i :: 0 <= i < |bs| ==> GoodBurst(bs[i])
  }

  // ----- The specification: bursts executed one after the other, each at once -----

  /** Beat k of burst b on memory m. */
  function OneBeat<M>(bus: Bus<M>, m: M, b: Burst, k: nat): (M, Resp)
    requires GoodBurst(b) && k <= b.len
  {
    var addr := BeatAddress(b.addr, b.size, b.len, k);
    var (m', data) :=
      if b.isWrite then (bus.store(m, addr, b.beats[k].1, STROBE_TO_MASK[b.beats[k].0]), 0) else bus.load(m, addr);
    (m', Resp(true, k == b.len, data))
  }

  /** Beats k.. of burst b on memory m: the memory they leave and the responses they give. */
  function Atomic<M>(bus: Bus<M>, m: M, b: Burst, k: nat): (M, seq<Resp>)
    requires GoodBurst(b) && k <= b.len + 1
    decreases b.len + 1 - k
  {
    if k == b.len + 1 then (m, [])
    else
      var (m', resp) := OneBeat(bus, m, b, k);
      var (m'', resps) := Atomic(bus, m', b, k + 1);
      (m'', [resp] + resps)
  }

  /** Bursts bs in order, the first from its beat k. */
  function AtomicAll<M>(bus: Bus<M>, m: M, bs: seq<Burst>, k: nat): (M, seq<Resp>)
    requires GoodBursts(bs) && (if bs == [] then k == 0 else k <= bs[0].len + 1)
    decreases |bs|
  {
    if bs == [] then (m, [])
    else
      var (m', rs) := Atomic(bus, m, bs[0], k);
      var (m'', rs') := AtomicAll(bus, m', bs[1..], 0);
      (m'', rs + rs')
  }

  // ----- The implementation: master and device, cycle by cycle -----

  /** The bursts still to do, the beat the first of them has reached, and whether it is on the bus. */
  datatype Master = Master(bursts: seq<Burst>, beat: nat, begun: bool)

  datatype Sys<M> = Sys(dev: Dev<M>, master: Master)

  predicate GoodMaster(m: Master) {
    GoodBursts(m.bursts) && (if m.bursts == [] then m.beat == 0 && !m.begun else m.beat <= m.bursts[0].len)
  }

  /** What the master puts on the bus; it may hold back a burst that is not on the bus yet. */
  function Request(m: Master, hold: bool): (r: Req)
    requires GoodMaster(m)
    ensures Encodable(r.addr, r.size, r.len)
  {
    if m.bursts == [] || (hold && !m.begun) then Req(false, false, 0, 0, 0, 0, 0)
    else
      var b := m.bursts[0];
      Req(true, b.isWrite, b.size, b.addr, b.beats[m.beat].0, b.beats[m.beat].1, b.len)
  }

  function Observe(m: Master, req: Req, resp: Resp): Master {
    if resp.ready && m.bursts != [] then
      if resp.last then Master(m.bursts[1..], 0, false) else m.(beat := m.beat + 1)
    else m.(begun := m.begun || req.valid)
  }

  function Cycle<M>(bus: Bus<M>, s: Sys<M>, next: bool, hold: bool): (Sys<M>, Resp)
    requires GoodMaster(s.master)
  {
    var req := Request(s.master, hold);
    var (d, resp) := EvalResp(bus, s.dev);
    (Sys(Edge(bus, EvalReq(d, req), next), Observe(s.master, req, resp)), resp)
  }

  /** The device's transaction at beat k of burst b. */
  function BusyTxn(b: Burst, k: nat): Txn
    requires GoodBurst(b)
  {
    Beat(Begin(IDLE, b.addr, b.size, b.len).(busy := true, isWrite := b.isWrite), k)
  }

  /** Between cycles: tx and ntx agree, and a busy device is exactly where the master is. */
  ghost predicate Synced<M>(s: Sys<M>) {
    && GoodMaster(s.master)
    && s.dev.tx == s.dev.ntx
    && (if s.dev.tx.busy
        then s.master.bursts != [] && s.master.begun && s.dev.tx == BusyTxn(s.master.bursts[0], s.master.beat)
        else s.master.beat == 0)
  }

  lemma {:induction false} BusyTxnFacts(b: Burst, k: nat)
    requires GoodBurst(b)
    ensures var t := BusyTxn(b, k);
            && t.busy && t.isWrite == b.isWrite && t.n == k + 1 && t.burstLength == b.len + 1
            && t.start == b.addr && t.numberBytes == Bytes(b.size)
            && t.addr == BeatAddress(b.addr, b.size, b.len, k)
            && t == Beat(Begin(IDLE, b.addr, b.size, b.len), k).(busy := true, isWrite := b.isWrite)
  {
    if k > 0 {
      BusyTxnFacts(b, k - 1);
    }
  }

  /** The responses and the final memory that are still to come. */
  function Rest<M>(bus: Bus<M>, s: Sys<M>): (M, seq<Resp>)
    requires GoodMaster(s.master)
  {
    AtomicAll(bus, s.dev.mem, s.master.bursts, s.master.beat)
  }

  function Logged(resp: Resp): seq<Resp> {
    if resp.ready then [resp] else []
  }

  /** One cycle keeps the system synced, passes the device's sanity checks, and moves at most one response
      from those to come to those given. */
  lemma CycleRefines<M>(bus: Bus<M>, s: Sys<M>, next: bool, hold: bool)
    requires Synced(s)
    ensures var (s', resp) := Cycle(bus, s, next, hold);
            && Synced(s')
            && Rest(bus, s).0 == Rest(bus, s').0
            && Rest(bus, s).1 == Logged(resp) + Rest(bus, s').1
    ensures s.dev.enable && s.dev.tx.busy ==> Complies(s.dev.tx, Request(s.master, hold))
  {
    var (s', resp) := Cycle(bus, s, next, hold);
    if s.dev.tx.busy {
      var b, k := s.master.bursts[0], s.master.beat;
      BusyTxnFacts(b, k);
      if s.dev.enable {
        BeatRefines(bus, s, next, hold);
      }
    }
  }

  /** An enabled cycle of a busy device does the beat that the master is at, and moves on to the next. */
  lemma BeatSyncs<M>(bus: Bus<M>, s: Sys<M>, next: bool, hold: bool)
    requires Synced(s) && s.dev.enable && s.dev.tx.busy
    ensures var (s', resp) := Cycle(bus, s, next, hold); var b, k := s.master.bursts[0], s.master.beat;
            && Synced(s')
            && (s'.dev.mem, resp) == OneBeat(bus, s.dev.mem, b, k)
            && s'.master == if k == b.len then Master(s.master.bursts[1..], 0, false) else s.master.(beat := k + 1)
  {
    BusyTxnFacts(s.master.bursts[0], s.master.beat);
  }

  lemma BeatRefines<M>(bus: Bus<M>, s: Sys<M>, next: bool, hold: bool)
    requires Synced(s) && s.dev.enable && s.dev.tx.busy
    ensures var (s', resp) := Cycle(bus, s, next, hold);
            && Synced(s')
            && Rest(bus, s).0 == Rest(bus, s').0
            && Rest(bus, s).1 == Logged(resp) + Rest(bus, s').1
  {
    BeatSyncs(bus, s, next, hold);
    var (s', resp) := Cycle(bus, s, next, hold);
    RestUnfolds(bus, s.dev.mem, s.master.bursts, s.master.beat);
  }

  /** The rest of bursts bs from beat k on: that beat, and the rest after it. */
  lemma RestUnfolds<M>(bus: Bus<M>, m: M, bs: seq<Burst>, k: nat)
    requires GoodBursts(bs) && bs != [] && k <= bs[0].len
    ensures var (m', resp) := OneBeat(bus, m, bs[0], k);
            var (r, r') := (AtomicAll(bus, m, bs, k),
                            if k == bs[0].len then AtomicAll(bus, m', bs[1..], 0) else AtomicAll(bus, m', bs, k + 1));
            r.0 == r'.0 && r.1 == [resp] + r'.1
  {
    var b := bs[0];
    var (m', resp) := OneBeat(bus, m, b, k);
    var (m'', rs) := Atomic(bus, m', b, k + 1);
    var (_, rs') := AtomicAll(bus, m'', bs[1..], 0);
    assert ([resp] + rs) + rs' == [resp] + (rs + rs');
    if k == b.len {
      assert rs + rs' == rs';
    }
  }

  // ----- Runs -----

  /** What one cycle leaves open: whether the next cycle is enabled, whether the master holds back. */
  datatype Choice = Choice(next: bool, hold: bool)

  /** The system after the cycles cs, and the ready responses in order. */
  ghost function Run<M>(bus: Bus<M>, s: Sys<M>, cs: seq<Choice>): (Sys<M>, seq<Resp>)
    requires Synced(s)
    decreases |cs|
  {
    if cs == [] then (s, [])
    else
      CycleRefines(bus, s, cs[0].next, cs[0].hold);
      var (s', resp) := Cycle(bus, s, cs[0].next, cs[0].hold);
      var (s'', log) := Run(bus, s', cs[1..]);
      (s'', Logged(resp) + log)
  }

  /** In every run, the responses given and those to come make up the atomic execution, and so does the memory. */
  lemma {:induction false} RunRefines<M>(bus: Bus<M>, s: Sys<M>, cs: seq<Choice>)
    requires Synced(s)
    ensures var (s', log) := Run(bus, s, cs);
            && Synced(s')
            && Rest(bus, s).0 == Rest(bus, s').0
            && Rest(bus, s).1 == log + Rest(bus, s').1
    decreases |cs|
  {
    if cs != [] {
      CycleRefines(bus, s, cs[0].next, cs[0].hold);
      var (s1, resp) := Cycle(bus, s, cs[0].next, cs[0].hold);
      RunRefines(bus, s1, cs[1..]);
      var (s', log) := Run(bus, s1, cs[1..]);
      AppendAssoc(Logged(resp), log, Rest(bus, s').1);
    }
  }

  lemma AppendAssoc<T>(a: seq<T>, b: seq<T>, c: seq<T>)
    ensures a + (b + c) == (a + b) + c
  {
  }

  ghost predicate Done<M>(s: Sys<M>) {
    s.master.bursts == []
  }

  /** A run that completes all bursts ends with the memory and has given the responses of executing them one
      after the other, each at once, whatever the pauses. */
  lemma BurstsAreAtomic<M>(bus: Bus<M>, s: Sys<M>, cs: seq<Choice>)
    requires Synced(s) && !s.dev.tx.busy && Done(Run(bus, s, cs).0)
    ensures var (s', log) := Run(bus, s, cs);
            (s'.dev.mem, log) == AtomicAll(bus, s.dev.mem, s.master.bursts, 0)
  {
    RunRefines(bus, s, cs);
    var (s', log) := Run(bus, s, cs);
    assert log + [] == log;
  }

  // ----- Deleting the disabled cycles -----

  /** The cycles of a run in which the device is enabled, as a run without pauses; a master that a paused
      cycle let begin does not hold back any more. */
  ghost function Squeezed<M>(bus: Bus<M>, s: Sys<M>, cs: seq<Choice>): (r: seq<Choice>)
    requires Synced(s)
    ensures |r| <= |cs| && forall i :: 0 <= i < |r| ==> r[i].next
    decreases |cs|
  {
    if cs == [] then []
    else
      CycleRefines(bus, s, cs[0].next, cs[0].hold);
      var s' := Cycle(bus, s, cs[0].next, cs[0].hold).0;
      var rest := Squeezed(bus, s', cs[1..]);
      if s.dev.enable then [Choice(true, cs[0].hold && !s.master.begun)] + rest else rest
  }

  /** t is s, but enabled, and possibly with the master not yet begun. */
  ghost predicate Unpaused<M>(s: Sys<M>, t: Sys<M>) {
    && Synced(s) && Synced(t)
    && t.dev == s.dev.(enable := true)
    && t.master == s.master.(begun := t.master.begun) && (t.master.begun ==> s.master.begun)
  }

  /** A disabled cycle gives no response and changes nothing but enable and begun. */
  lemma DisabledCycle<M>(bus: Bus<M>, s: Sys<M>, t: Sys<M>, c: Choice)
    requires Unpaused(s, t) && !s.dev.enable
    ensures var (s', resp) := Cycle(bus, s, c.next, c.hold);
            Unpaused(s', t) && !resp.ready && Logged(resp) == []
  {
    CycleRefines(bus, s, c.next, c.hold);
  }

  lemma EnabledCycle<M>(bus: Bus<M>, s: Sys<M>, t: Sys<M>, c: Choice)
    requires Unpaused(s, t) && s.dev.enable
    ensures var (s', resp) := Cycle(bus, s, c.next, c.hold);
            var (t', resp') := Cycle(bus, t, true, c.hold && !s.master.begun);
            Unpaused(s', t') && resp' == resp
  {
    CycleRefines(bus, s, c.next, c.hold);
    CycleRefines(bus, t, true, c.hold && !s.master.begun);
  }

  /** Deleting the disabled cycles of a run changes neither the memory nor the responses. */
  lemma {:induction false} PausesDoNotMatter<M>(bus: Bus<M>, s: Sys<M>, t: Sys<M>, cs: seq<Choice>)
    requires Unpaused(s, t)
    ensures var (s', log) := Run(bus, s, cs);
            var (t', log') := Run(bus, t, Squeezed(bus, s, cs));
            Unpaused(s', t') && t'.dev.mem == s'.dev.mem && log' == log
    decreases |cs|
  {
    if cs != [] {
      var c := cs[0];
      CycleRefines(bus, s, c.next, c.hold);
      var (s1, resp) := Cycle(bus, s, c.next, c.hold);
      var (_, log) := Run(bus, s1, cs[1..]);
      if s.dev.enable {
        EnabledCycle(bus, s, t, c);
        var c' := Choice(true, c.hold && !s.master.begun);
        var t1 := Cycle(bus, t, c'.next, c'.hold).0;
        PausesDoNotMatter(bus, s1, t1, cs[1..]);
        var rest := Squeezed(bus, s1, cs[1..]);
        assert ([c'] + rest)[0] == c' && ([c'] + rest)[1..] == rest;
      } else {
        DisabledCycle(bus, s, t, c);
        PausesDoNotMatter(bus, s1, t, cs[1..]);
        assert Logged(resp) + log == log;
      }
    }
  }

  // ----- Progress -----

  /** Cycles to do: one to start each burst and one for each beat. */
  function Cost(bs: seq<Burst>): int {
    if bs == [] then 0 else bs[0].len + 2 + Cost(bs[1..])
  }

  function Work<M>(s: Sys<M>): int {
    if s.master.bursts != [] && s.dev.tx.busy then Cost(s.master.bursts) - 1 - s.master.beat
    else Cost(s.master.bursts)
  }

  /** An enabled cycle in which the master does not hold back does one unit of work; a disabled one does none. */
  lemma CycleWorks<M>(bus: Bus<M>, s: Sys<M>, c: Choice)
    requires Synced(s) && !c.hold
    ensures var s' := Cycle(bus, s, c.next, c.hold).0;
            Work(s') == if s.dev.enable && !Done(s) then Work(s) - 1 else Work(s)
  {
    CycleRefines(bus, s, c.next, c.hold);
    if s.dev.tx.busy {
      BusyTxnFacts(s.master.bursts[0], s.master.beat);
    }
  }

  lemma {:induction false} CostIsZero(bs: seq<Burst>)
    requires GoodBursts(bs)
    ensures 0 <= Cost(bs) && (Cost(bs) <= 0 <==> bs == [])
  {
    if bs != [] {
      assert GoodBurst(bs[0]);
      CostIsZero(bs[1..]);
    }
  }

  /** How many of the cycles cs find the device enabled. */
  ghost function EnabledCycles<M>(bus: Bus<M>, s: Sys<M>, cs: seq<Choice>): nat
    requires Synced(s)
  {
    |Squeezed(bus, s, cs)|
  }

  /** Once the enabled cycles suffice for the work, everything is done: pauses cost only themselves. */
  lemma {:induction false} EnoughCyclesComplete<M>(bus: Bus<M>, s: Sys<M>, cs: seq<Choice>)
    requires Synced(s) && forall i :: 0 <= i < |cs| ==> !cs[i].hold
    ensures Done(Run(bus, s, cs).0) <==> EnabledCycles(bus, s, cs) >= Work(s)
    decreases |cs|
  {
    CostIsZero(s.master.bursts);
    if s.dev.tx.busy {
      CostIsZero(s.master.bursts[1..]);
    }
    if cs != [] {
      CycleRefines(bus, s, cs[0].next, cs[0].hold);
      CycleWorks(bus, s, cs[0]);
      EnoughCyclesComplete(bus, Cycle(bus, s, cs[0].next, cs[0].hold).0, cs[1..]);
      if Done(s) {
        DoneStays(bus, s, cs);
      }
    }
  }

  lemma {:induction false} DoneStays<M>(bus: Bus<M>, s: Sys<M>, cs: seq<Choice>)
    requires Synced(s) && Done(s)
    ensures Done(Run(bus, s, cs).0)
    decreases |cs|
  {
    if cs != [] {
      CycleRefines(bus, s, cs[0].next, cs[0].hold);
      DoneStays(bus, Cycle(bus, s, cs[0].next, cs[0].hold).0, cs[1..]);
    }
  }
}
