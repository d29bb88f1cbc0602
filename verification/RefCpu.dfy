/** One simulation tick (RefCPU::tick in refcpu.cpp): the CBus device with CONFREG behind it, clocked together.
    The processor is any source of requests; the reader thread may push UART input anywhere in the tick. */
module RefCpu {
  import opened Axi
  import opened CBus
  import opened Common
  import opened Confreg

  type Machine = Dev<State>

  /** UART input that arrives before the response is evaluated, between that and the device syncs, while
      CONFREG syncs, and after that. */
  datatype Arrivals = Arrivals(before: seq<Byte>, early: seq<Byte>, during: seq<Byte>, late: seq<Byte>)

  datatype Input = Input(req: Req, next: bool, arrivals: Arrivals)

  predicate GoodInput(i: Input) {
    Encodable(i.req.addr, i.req.size, i.req.len)
  }

  function Arrive(d: Machine, cs: seq<Byte>): Machine {
    d.(mem := Push(d.mem, cs))
  }

  /** clk low: the response is put on the bus. */
  function Low(d: Machine, i: Input): (Machine, Resp) {
    EvalResp(BUS, Arrive(d, i.arrivals.before))
  }

  /** The request is evaluated, then CONFREG and the device see the clock edge. */
  function High(d: Machine, i: Input): Machine
    requires GoodInput(i)
  {
    var d2 := EvalReq(Arrive(d, i.arrivals.early), i.req);
    Arrive(Edge(BUS, d2.(mem := Sync(d2.mem, i.arrivals.during)), i.next), i.arrivals.late)
  }

  function Tick(d: Machine, i: Input): (Machine, Resp)
    requires GoodInput(i)
  {
    (High(Low(d, i).0, i), Low(d, i).1)
  }

  /** Of any machine; the random enable bit stays, and so does the queue of stores. */
  function AfterReset(d: Machine): Machine {
    Dev(Reset(d.mem), d.enable, 0, 0, IDLE, IDLE)
  }

  class RefCPU {
    const dev: CBusDevice<State>
    var testFinished: bool

    ghost predicate Valid()
      reads this, dev
    {
      dev.Valid() && dev.bus == BUS
    }

    constructor ()
      ensures Valid() && !testFinished && fresh(dev) && fresh(dev.tx) && fresh(dev.ntx)
    {
      testFinished := false;
      var con := State(RESET_CONTEXT, RESET_CONTEXT, [], false, [], RESET_REGISTERS, [], false);
      dev := new CBusDevice<State>(BUS, con);
    }

    /** The reset of the bus device, with which RefCPU::reset begins; ticks follow. */
    method ResetBus()
      requires Valid()
      modifies dev, dev.tx, dev.ntx
      ensures Valid() && dev.View() == AfterReset(old(dev.View())) && testFinished == old(testFinished)
    {
      dev.Reset();
    }

    /** pcAtEnd says whether the program counter, read after the tick, is at the end of the test. */
    method TickOnce(i: Input, pcAtEnd: bool) returns (resp: Resp)
      requires Valid() && GoodInput(i)
      requires dev.enable && dev.tx.busy ==> Complies(dev.tx.View(), i.req)
      modifies this, dev, dev.tx, dev.ntx
      ensures Valid()
      ensures if old(testFinished) then dev.View() == old(dev.View()) && testFinished && resp == NO_RESP
              else (dev.View(), resp) == Tick(old(dev.View()), i)
                   && (testFinished <==>
                       pcAtEnd || (dev.mem.ctx0.vuartWritten && dev.mem.ctx0.vuartData == 0xff))
    {
      if testFinished {
        return NO_RESP;
      }
      resp := Respond(i);
      Clock(i);
      if pcAtEnd || (dev.mem.ctx0.vuartWritten && dev.mem.ctx0.vuartData == 0xff) {
        testFinished := true;
      }
    }

    /** The first half of a tick, up to the response. */
    method Respond(i: Input) returns (resp: Resp)
      requires Valid()
      modifies dev
      ensures Valid() && (dev.View(), resp) == Low(old(dev.View()), i)
      ensures dev.enable == old(dev.enable)
    {
      dev.mem := Push(dev.mem, i.arrivals.before);
      resp := dev.EvalResponse();
    }

    /** The second half: request and clock edge. */
    method Clock(i: Input)
      requires Valid() && GoodInput(i)
      requires dev.enable && dev.tx.busy ==> Complies(dev.tx.View(), i.req)
      modifies dev, dev.tx, dev.ntx
      ensures Valid() && dev.View() == High(old(dev.View()), i)
    {
      dev.mem := Push(dev.mem, i.arrivals.early);
      dev.EvalRequest(i.req);
      dev.mem := Sync(dev.mem, i.arrivals.during);
      dev.Sync(i.next);
      dev.mem := Push(dev.mem, i.arrivals.late);
    }
  }

  predicate GoodInputs(ins: seq<Input>) {
    forall i :: 0 <= i < |ins| ==> GoodInput(ins[i])
  }

  function RunTicks(d: Machine, ins: seq<Input>): Machine
    requires GoodInputs(ins)
    decreases |ins|
  {
    if ins == [] then d else RunTicks(Tick(d, ins[0]).0, ins[1..])
  }

  // ----- Registers: no stale reads -----

  /** The register store that this tick performs: address and data. */
  function Written(d: Machine, req: Req): Option<(int, Word)> {
    if d.enable && d.tx.busy && d.tx.isWrite then Some((Register(d.tx.addr), req.data)) else None
  }

  /** Register a after a tick that performs the store w: the timer counts, and a store sets the value at once. */
  function After(a: int, v: Word, w: Option<(int, Word)>): Word {
    if w.Some? && w.value.0 == a then Normal(a, w.value.1)
    else if a == TIMER then v + 1
    else v
  }

  /** The stores of the ticks ins, one entry a tick. */
  function Writes(d: Machine, ins: seq<Input>): (ws: seq<Option<(int, Word)>>)
    requires GoodInputs(ins)
    ensures |ws| == |ins|
    decreases |ins|
  {
    if ins == [] then [] else [Written(d, ins[0].req)] + Writes(Tick(d, ins[0]).0, ins[1..])
  }

  function Followed(ws: seq<Option<(int, Word)>>, a: int, v: Word): Word {
    if ws == [] then v else Followed(ws[1..], a, After(a, v, ws[0]))
  }

  /** What register a should hold after the ticks ins when it held v before them: the latest store, normalised. */
  function Latest(d: Machine, ins: seq<Input>, a: int, v: Word): Word
    requires GoodInputs(ins)
  {
    Followed(Writes(d, ins), a, v)
  }

  lemma LatestFrom(d: Machine, ins: seq<Input>, a: int, v: Word)
    requires GoodInputs(ins) && ins != []
    ensures Latest(d, ins, a, v) == Latest(Tick(d, ins[0]).0, ins[1..], a, After(a, v, Written(d, ins[0].req)))
  {
    assert Writes(d, ins)[1..] == Writes(Tick(d, ins[0]).0, ins[1..]);
  }

  /** Registers are apart from the UART addresses, and the timer is one of them. */
  ghost predicate Registers(mem: map<int, Word>) {
    TIMER in mem && UART_LSR !in mem && UART_RXD !in mem
  }

  /** While a read transaction is on the bus, no store is waiting to be committed. */
  ghost predicate Settled(d: Machine) {
    && d.tx == d.ntx
    && Registers(d.mem.mem)
    && (d.tx.busy && !d.tx.isWrite ==> d.mem.changes == [])
  }

  /** Register a once the waiting stores are committed. */
  function Pending(s: State, a: int): Word
    requires a in s.mem
  {
    Commit(s.mem, s.changes)[a]
  }

  lemma {:induction false} CommitSnoc(mem: map<int, Word>, changes: seq<(int, Word)>, addr: int, data: Word)
    ensures Commit(mem, changes + [(addr, data)])
            == if addr in mem then Commit(mem, changes)[addr := data] else Commit(mem, changes)
  {
    var all := changes + [(addr, data)];
    if changes == [] {
      assert all[1..] == [];
    } else {
      assert all[0] == changes[0] && all[1..] == changes[1..] + [(addr, data)];
      CommitSnoc(if changes[0].0 in mem then mem[changes[0].0 := changes[0].1] else mem, changes[1..], addr, data);
    }
  }

  lemma LoadFacts(s: State, a: int)
    ensures var s' := Load(s, a).0;
            && s' == s.(ctx := s.ctx.(uartFetched := s'.ctx.uartFetched), aborted := s'.aborted)
  {
  }

  /** The response, with CONFREG behind the bus. */
  lemma RespIs(d: Machine)
    ensures EvalResp(BUS, d)
            == if !d.enable || !d.tx.busy then (d, NO_RESP)
               else if d.tx.isWrite then (d, Resp(true, Last(d.tx), 0))
               else (d.(mem := Load(d.mem, d.tx.addr).0), Resp(true, Last(d.tx), Load(d.mem, d.tx.addr).1))
  {
  }

  /** Putting the response on the bus changes nothing but the note that a character was fetched. */
  lemma LowFacts(d: Machine, i: Input)
    ensures var d1 := Low(d, i).0;
            && d1 == d.(mem := d1.mem)
            && d1.mem.mem == d.mem.mem && d1.mem.changes == d.mem.changes
            && d1.mem.ctx == d.mem.ctx.(uartFetched := d1.mem.ctx.uartFetched) && d1.mem.ctx0 == d.mem.ctx0
            && d1.mem.fifo == d.mem.fifo + i.arrivals.before
            && d1.mem.sent == d.mem.sent && d1.mem.opty == d.mem.opty
  {
    RespIs(Arrive(d, i.arrivals.before));
    LoadFacts(Push(d.mem, i.arrivals.before), d.tx.addr);
  }

  /** Before the device's own edge: the waiting stores are committed and the timer has counted. */
  function Clocked(d: Machine, i: Input): State {
    Sync(Push(d.mem, i.arrivals.early), i.arrivals.during)
  }

  /** The request touches the operands and the next transaction only; a write stays a write. */
  lemma RequestFacts(d: Machine, req: Req)
    requires Encodable(req.addr, req.size, req.len) && d.tx == d.ntx
    ensures var d' := EvalReq(d, req);
            && d'.mem == d.mem && d'.enable == d.enable && d'.tx == d.tx
            && (!d.enable ==> d' == d)
            && (d.enable && d.tx.busy ==> d'.strobe == req.strobe && d'.data == req.data)
            && (d.enable && d.tx.busy && d.tx.isWrite ==> !d'.ntx.busy || d'.ntx.isWrite)
  {
  }

  /** The clock edge stores what a busy write has on the bus. */
  lemma EdgeIs(d: Machine, next: bool)
    ensures var d' := Edge(BUS, d, next);
            && d'.mem == (if d.enable && d.tx.busy && d.tx.isWrite
                          then Store(d.mem, d.tx.addr, d.data, STROBE_TO_MASK[d.strobe]) else d.mem)
            && d'.tx == (if d.enable then d.ntx else d.tx) && d'.ntx == d.ntx
  {
  }

  lemma HighFacts(d: Machine, i: Input)
    requires GoodInput(i) && d.tx == d.ntx
    ensures var d' := High(d, i); var s := Clocked(d, i);
            && d'.tx == d'.ntx
            && (d'.tx.busy && !d'.tx.isWrite ==> !(d.enable && d.tx.busy && d.tx.isWrite))
            && d'.mem == Push(if d.enable && d.tx.busy && d.tx.isWrite
                              then Store(s, d.tx.addr, i.req.data, STROBE_TO_MASK[i.req.strobe]) else s,
                              i.arrivals.late)
  {
    var d1 := Arrive(d, i.arrivals.early);
    var d2 := EvalReq(d1, i.req);
    RequestFacts(d1, i.req);
    EdgeIs(d2.(mem := Sync(d2.mem, i.arrivals.during)), i.next);
  }

  /** The effect of a store on the registers. */
  lemma StorePending(s: State, address: int, data: Word, mask: Word, a: int)
    requires Registers(s.mem) && a in s.mem && s.changes == []
    ensures var s' := Store(s, address, data, mask);
            s'.mem == s.mem && Pending(s', a) == if Register(address) == a then Normal(a, data) else s.mem[a]
  {
    var addr := Register(address);
    CommitSnoc(s.mem, [], addr, Normal(addr, data));
    assert [] + [(addr, Normal(addr, data))] == [(addr, Normal(addr, data))];
  }

  lemma TickedAt(m: map<int, Word>, a: int)
    requires TIMER in m && a in m
    ensures Ticked(m).Keys == m.Keys && Ticked(m)[a] == if a == TIMER then m[a] + 1 else m[a]
  {
  }

  lemma ClockedFacts(d: Machine, i: Input, a: int)
    requires Registers(d.mem.mem) && a in d.mem.mem
    ensures var s := Clocked(d, i);
            && s.changes == [] && s.mem.Keys == d.mem.mem.Keys
            && s.mem[a] == if a == TIMER then Pending(d.mem, a) + 1 else Pending(d.mem, a)
  {
    ClockedMem(d, i);
    TickedAt(Commit(d.mem.mem, d.mem.changes), a);
  }

  lemma ClockedMem(d: Machine, i: Input)
    ensures Clocked(d, i).mem == Ticked(Commit(d.mem.mem, d.mem.changes)) && Clocked(d, i).changes == []
  {
    PopKeeps(Push(d.mem, i.arrivals.early));
    SettleMem(Push(Pop(Push(d.mem, i.arrivals.early)), i.arrivals.during));
  }

  lemma PopKeeps(s: State)
    ensures Pop(s).mem == s.mem && Pop(s).changes == s.changes
  {
  }

  lemma SettleMem(s: State)
    ensures Settle(s).mem == Ticked(Commit(s.mem, s.changes)) && Settle(s).changes == []
  {
  }

  /** The device's edge stores at most one register. */
  lemma EdgeStores(d: Machine, i: Input, a: int)
    requires d.tx == d.ntx && GoodInput(i) && Registers(d.mem.mem) && a in d.mem.mem
    ensures var s, d' := Clocked(d, i), High(d, i);
            && d'.mem.mem == s.mem && a in s.mem && Registers(s.mem)
            && (Written(d, i.req).None? ==> d'.mem.changes == [])
            && Pending(d'.mem, a) == var w := Written(d, i.req);
                 if w.Some? && w.value.0 == a then Normal(a, w.value.1) else s.mem[a]
  {
    HighFacts(d, i);
    ClockedFacts(d, i, a);
    if d.enable && d.tx.busy && d.tx.isWrite {
      StorePending(Clocked(d, i), d.tx.addr, i.req.data, STROBE_TO_MASK[i.req.strobe], a);
    }
  }

  /** One tick keeps Settled, and the pending value of each register follows its latest store. */
  lemma TickSettles(d: Machine, i: Input, a: int)
    requires Settled(d) && GoodInput(i) && a in d.mem.mem
    ensures Settled(Tick(d, i).0) && a in Tick(d, i).0.mem.mem
    ensures Pending(Tick(d, i).0.mem, a) == After(a, Pending(d.mem, a), Written(d, i.req))
  {
    LowFacts(d, i);
    var d1 := Low(d, i).0;
    assert Written(d1, i.req) == Written(d, i.req) && Pending(d1.mem, a) == Pending(d.mem, a);
    EdgeStores(d1, i, a);
    ClockedFacts(d1, i, a);
    HighFacts(d1, i);
  }

  lemma {:induction false} RunSettles(d: Machine, ins: seq<Input>, a: int)
    requires Settled(d) && GoodInputs(ins) && a in d.mem.mem
    ensures var d' := RunTicks(d, ins);
            Settled(d') && a in d'.mem.mem && Pending(d'.mem, a) == Latest(d, ins, a, Pending(d.mem, a))
    decreases |ins|
  {
    if ins != [] {
      TickSettles(d, ins[0], a);
      RunSettles(Tick(d, ins[0]).0, ins[1..], a);
      LatestFrom(d, ins, a, Pending(d.mem, a));
    }
  }

  lemma ReadsPending(d: Machine, i: Input, a: int)
    requires Settled(d) && GoodInput(i) && a in d.mem.mem
    requires d.enable && d.tx.busy && !d.tx.isWrite && Register(d.tx.addr) == a
    ensures Tick(d, i).1 == Resp(true, Last(d.tx), Pending(d.mem, a))
  {
  }

  /** In every run, with any requests and any pauses, a beat that reads a register returns the normalised value
      of the latest store to it, although stores take effect one sync late. */
  lemma NoStaleReads(d: Machine, ins: seq<Input>, i: Input, a: int)
    requires Settled(d) && GoodInputs(ins) && GoodInput(i) && a in d.mem.mem
    ensures var d' := RunTicks(d, ins);
            d'.enable && d'.tx.busy && !d'.tx.isWrite && Register(d'.tx.addr) == a ==>
              Tick(d', i).1 == Resp(true, Last(d'.tx), Latest(d, ins, a, Pending(d.mem, a)))
  {
    RunSettles(d, ins, a);
    var d' := RunTicks(d, ins);
    if d'.enable && d'.tx.busy && !d'.tx.isWrite && Register(d'.tx.addr) == a {
      ReadsPending(d', i, a);
    }
  }

  // ----- What a register gives back -----

  /** This tick stores req.data to register a. */
  predicate StoresTo(d: Machine, a: int) {
    d.enable && d.tx.busy && d.tx.isWrite && d.tx.addr % 0x1_0000 == a
  }

  predicate ReadsFrom(d: Machine, a: int) {
    d.enable && d.tx.busy && !d.tx.isWrite && d.tx.addr % 0x1_0000 == a
  }

  /** No tick of the run stores to register a. */
  predicate LeftAlone(d: Machine, ins: seq<Input>, a: int)
    requires GoodInputs(ins)
    decreases |ins|
  {
    ins != [] ==> !StoresTo(d, a) && LeftAlone(Tick(d, ins[0]).0, ins[1..], a)
  }

  /** v counted up n times, in 32 bits. */
  function Counted(v: Word, n: nat): Word {
    if n == 0 then v else Counted(v, n - 1) + 1
  }

  /** What register a gives back, n ticks after data were stored to it: IO_SIMU the halves exchanged, NUM_MONITOR
      the lowest bit, OPEN_TRACE whether there is any, VIRTUAL_UART the low byte, SIMU_FLAG all ones, TIMER the data
      and a count of the ticks, and every other register the data. */
  predicate GivesBack(a: int, data: Word, n: nat, v: Word) {
    if a == 0xffec then v >> 16 == data & 0xffff && v & 0xffff == data >> 16
    else if a == 0xfffc then v < 2 && (v == 1 <==> data & 1 == 1)
    else if a == 0xfff8 then v < 2 && (v == 1 <==> data != 0)
    else if a == 0xfff0 then v < 0x100 && (v ^ data) & 0xff == 0
    else if a == 0xfff4 then v == 0xffff_ffff
    else if a == 0xe000 then v == Counted(data, n)
    else v == data
  }

  // Pure bit-vector facts, one per register that is not kept as it is.

  lemma SwapHalves(data: Word)
    ensures SwapBytes(data) >> 16 == data & 0xffff && SwapBytes(data) & 0xffff == data >> 16
  {
  }

  lemma LowBit(data: Word)
    ensures data & 1 < 2
  {
  }

  lemma LowByteOnly(data: Word)
    ensures data & 0xff < 0x100 && ((data & 0xff) ^ data) & 0xff == 0
  {
  }

  lemma NormalGivesBack(a: int, data: Word)
    ensures GivesBack(a, data, 0, Normal(a, data))
  {
    if a == IO_SIMU {
      SwapHalves(data);
    } else if a == NUM_MONITOR {
      LowBit(data);
    } else if a == VIRTUAL_UART {
      LowByteOnly(data);
    }
  }

  /** Storing back what IO_SIMU gave restores the data. */
  lemma SwappedTwice(data: Word, v: Word, u: Word)
    requires GivesBack(IO_SIMU, data, 0, v) && GivesBack(IO_SIMU, v, 0, u)
    ensures u == data
  {
    HalvesTwice(data, v, u);
  }

  lemma HalvesTwice(data: Word, v: Word, u: Word)
    requires v >> 16 == data & 0xffff && v & 0xffff == data >> 16
    requires u >> 16 == v & 0xffff && u & 0xffff == v >> 16
    ensures u == data
  {
  }

  predicate NoneTo(ws: seq<Option<(int, Word)>>, a: int) {
    forall k :: 0 <= k < |ws| ==> ws[k].None? || ws[k].value.0 != a
  }

  lemma {:induction false} WritesLeaveAlone(d: Machine, ins: seq<Input>, a: int)
    requires GoodInputs(ins) && LeftAlone(d, ins, a)
    ensures NoneTo(Writes(d, ins), a)
    decreases |ins|
  {
    if ins != [] {
      NotWritten(d, ins[0].req, a);
      WritesLeaveAlone(Tick(d, ins[0]).0, ins[1..], a);
    }
  }

  lemma {:induction false} FollowedAlone(ws: seq<Option<(int, Word)>>, a: int, v: Word)
    requires NoneTo(ws, a)
    ensures Followed(ws, a, v) == if a == TIMER then Counted(v, |ws|) else v
  {
    if ws != [] {
      FollowedAlone(ws[1..], a, After(a, v, ws[0]));
      CountedOn(v, |ws| - 1);
    }
  }

  lemma NotWritten(d: Machine, req: Req, a: int)
    ensures StoresTo(d, a) <==> Written(d, req).Some? && Written(d, req).value.0 == a
    ensures StoresTo(d, a) ==> Written(d, req) == Some((a, req.data))
  {
  }

  lemma {:induction false} CountedOn(v: Word, n: nat)
    ensures Counted(v + 1, n) == Counted(v, n + 1)
  {
    if n > 0 {
      CountedOn(v, n - 1);
    }
  }

  /** In every run, with any requests and pauses in between: a read of a register after a store to it, and none
      since, gives back what GivesBack says. */
  lemma StoreIsReadBack(d: Machine, i0: Input, ins: seq<Input>, i: Input, a: int)
    requires Settled(d) && GoodInput(i0) && GoodInputs(ins) && GoodInput(i) && a in d.mem.mem
    requires StoresTo(d, a) && LeftAlone(Tick(d, i0).0, ins, a) && ReadsFrom(RunTicks(Tick(d, i0).0, ins), a)
    ensures var d' := RunTicks(Tick(d, i0).0, ins); var resp := Tick(d', i).1;
            resp.ready && resp.last == Last(d'.tx) && GivesBack(a, i0.req.data, |ins|, resp.data)
  {
    var d1 := Tick(d, i0).0;
    var data := i0.req.data;
    StorePends(d, i0, a, data);
    ReadIs(d1, ins, i, a, Normal(a, data));
    NormalCounted(a, data, |ins|);
  }

  lemma StorePends(d: Machine, i0: Input, a: int, data: Word)
    requires Settled(d) && GoodInput(i0) && a in d.mem.mem && StoresTo(d, a) && data == i0.req.data
    ensures var d1 := Tick(d, i0).0; Settled(d1) && a in d1.mem.mem && Pending(d1.mem, a) == Normal(a, data)
  {
    TickSettles(d, i0, a);
    NotWritten(d, i0.req, a);
  }

  lemma ReadIs(d: Machine, ins: seq<Input>, i: Input, a: int, v: Word)
    requires Settled(d) && GoodInputs(ins) && GoodInput(i) && a in d.mem.mem && Pending(d.mem, a) == v
    requires LeftAlone(d, ins, a) && ReadsFrom(RunTicks(d, ins), a)
    ensures var d' := RunTicks(d, ins);
            Tick(d', i).1 == Resp(true, Last(d'.tx), if a == TIMER then Counted(v, |ins|) else v)
  {
    NoStaleReads(d, ins, i, a);
    WritesLeaveAlone(d, ins, a);
    FollowedAlone(Writes(d, ins), a, v);
  }

  lemma NormalCounted(a: int, data: Word, n: nat)
    ensures GivesBack(a, data, n, if a == TIMER then Counted(Normal(a, data), n) else Normal(a, data))
  {
    NormalGivesBack(a, data);
  }

  // ----- Virtual UART: each character stored is reported once, after the next tick -----

  function ToSeq(o: Option<Byte>): seq<Byte> {
    if o.Some? then [o.value] else []
  }

  /** The character this tick stores to VIRTUAL_UART. */
  function VuartStore(d: Machine, req: Req): Option<Byte> {
    if StoresTo(d, 0xfff0) then Some((req.data & 0xff) as Byte) else None
  }

  /** What has_char and get_char report between ticks. */
  function Reported(d: Machine): Option<Byte> {
    if d.mem.ctx0.vuartWritten then Some(d.mem.ctx0.vuartData) else None
  }

  function Waiting(d: Machine): Option<Byte> {
    if d.mem.ctx.vuartWritten then Some(d.mem.ctx.vuartData) else None
  }

  /** A store that the source refuses: to UART_LSR, or to UART_TXD with another mask than a byte's. */
  predicate Refused(d: Machine, req: Req) {
    d.enable && d.tx.busy && d.tx.isWrite
    && (Register(d.tx.addr) == UART_LSR || (Register(d.tx.addr) == UART_TXD && STROBE_TO_MASK[req.strobe] != 0xff))
  }

  /** Only the four noted registers touch the context. */
  lemma NotedFacts(ctx: Context, a: int, data: Word)
    ensures var c := Noted(ctx, a, data);
            && c.uartFetched == ctx.uartFetched && c.uartAvail == ctx.uartAvail
            && (if a == VIRTUAL_UART then c.vuartWritten && c.vuartData == LowByte(data)
                else c.vuartWritten == ctx.vuartWritten && c.vuartData == ctx.vuartData)
  {
  }

  lemma StoreFacts(s: State, address: int, data: Word, mask: Word)
    ensures var s' := Store(s, address, data, mask); var a := Register(address);
            && s'.ctx0 == s.ctx0 && s'.fifo == s.fifo
            && s'.ctx.uartFetched == s.ctx.uartFetched && s'.ctx.uartAvail == s.ctx.uartAvail
            && (if a == VIRTUAL_UART then s'.ctx.vuartWritten && s'.ctx.vuartData == LowByte(data)
                else s'.ctx.vuartWritten == s.ctx.vuartWritten && s'.ctx.vuartData == s.ctx.vuartData)
            && s'.aborted == (s.aborted || a == UART_LSR || (a == UART_TXD && mask != 0xff))
  {
    var a := Register(address);
    NotedFacts(s.ctx, a, data);
    if a == UART_LSR || a == UART_TXD {
      assert a != VIRTUAL_UART;
    } else {
      assert Store(s, address, data, mask)
          == s.(ctx := Noted(s.ctx, a, data), changes := s.changes + [(a, Normal(a, data))]);
    }
  }

  lemma ClockedContext(d: Machine, i: Input)
    ensures var s := Clocked(d, i);
            && s.ctx0.vuartWritten == d.mem.ctx.vuartWritten && s.ctx0.vuartData == d.mem.ctx.vuartData
            && !s.ctx.vuartWritten && !s.ctx.uartFetched && s.ctx.uartAvail == (s.fifo != [])
            && s.fifo == Pop(Push(d.mem, i.arrivals.early)).fifo + i.arrivals.during
            && s.aborted == Pop(Push(d.mem, i.arrivals.early)).aborted
  {
  }

  /** The context, FIFO and abort flag after the high half. */
  lemma HighContext(d: Machine, i: Input)
    requires GoodInput(i) && d.tx == d.ntx
    ensures var d', s := High(d, i), Clocked(d, i);
            && d'.mem.ctx0 == s.ctx0 && Waiting(d') == VuartStore(d, i.req)
            && d'.mem.ctx.uartFetched == s.ctx.uartFetched && d'.mem.ctx.uartAvail == s.ctx.uartAvail
            && d'.mem.fifo == s.fifo + i.arrivals.late
            && d'.mem.aborted == (s.aborted || Refused(d, i.req))
  {
    HighFacts(d, i);
    ClockedContext(d, i);
    if d.enable && d.tx.busy && d.tx.isWrite {
      StoreFacts(Clocked(d, i), d.tx.addr, i.req.data, STROBE_TO_MASK[i.req.strobe]);
    }
  }

  lemma TickReports(d: Machine, i: Input)
    requires GoodInput(i) && d.tx == d.ntx
    ensures var d' := Tick(d, i).0;
            d'.tx == d'.ntx && Reported(d') == Waiting(d) && Waiting(d') == VuartStore(d, i.req)
  {
    LowFacts(d, i);
    HighReports(Low(d, i).0, i);
    SameStore(d, Low(d, i).0, i.req);
  }

  lemma HighReports(d: Machine, i: Input)
    requires GoodInput(i) && d.tx == d.ntx
    ensures var d' := High(d, i);
            d'.tx == d'.ntx && Reported(d') == Waiting(d) && Waiting(d') == VuartStore(d, i.req)
  {
    HighFacts(d, i);
    HighContext(d, i);
    ClockedContext(d, i);
  }

  lemma SameStore(d: Machine, d1: Machine, req: Req)
    requires d1 == d.(mem := d1.mem)
    ensures VuartStore(d1, req) == VuartStore(d, req) && Written(d1, req) == Written(d, req)
  {
  }

  function Stores(d: Machine, ins: seq<Input>): seq<Byte>
    requires GoodInputs(ins)
    decreases |ins|
  {
    if ins == [] then [] else ToSeq(VuartStore(d, ins[0].req)) + Stores(Tick(d, ins[0]).0, ins[1..])
  }

  /** The characters reported after each tick of the run. */
  function Reports(d: Machine, ins: seq<Input>): seq<Byte>
    requires GoodInputs(ins)
    decreases |ins|
  {
    if ins == [] then []
    else var d' := Tick(d, ins[0]).0; ToSeq(Reported(d')) + Reports(d', ins[1..])
  }

  /** Exactly once and in order: what is reported is what was stored, one tick later. */
  lemma {:induction false} VuartIsExactlyOnce(d: Machine, ins: seq<Input>)
    requires GoodInputs(ins) && d.tx == d.ntx
    ensures ToSeq(Waiting(d)) + Stores(d, ins) == Reports(d, ins) + ToSeq(Waiting(RunTicks(d, ins)))
    decreases |ins|
  {
    if ins == [] {
      assert ToSeq(Waiting(d)) + [] == [] + ToSeq(Waiting(d));
    } else {
      TickReports(d, ins[0]);
      var d' := Tick(d, ins[0]).0;
      VuartIsExactlyOnce(d', ins[1..]);
      Shift(ToSeq(Waiting(d)), ToSeq(VuartStore(d, ins[0].req)), Stores(d', ins[1..]),
            Reports(d', ins[1..]), ToSeq(Waiting(RunTicks(d', ins[1..]))));
    }
  }

  lemma Shift<T>(a: seq<T>, b: seq<T>, c: seq<T>, r: seq<T>, w: seq<T>)
    requires b + c == r + w
    ensures a + (b + c) == (a + r) + w
  {
    assert a + (r + w) == (a + r) + w;
  }

  // ----- UART input: the reader thread's characters come out once, in order -----

  /** A beat of this tick reads UART_RXD. */
  predicate ReadsInput(d: Machine) {
    ReadsFrom(d, 0x1000)
  }

  /** The character that a successful read of UART_RXD takes in this tick. */
  function Fetched(d: Machine, i: Input): Option<Byte> {
    var fifo := d.mem.fifo + i.arrivals.before;
    if ReadsInput(d) && d.mem.ctx.uartAvail && fifo != [] then Some(fifo[0]) else None
  }

  /** The character that the processor is given on the bus: a read of UART_RXD while uart_avail is set returns it. */
  function Given(d: Machine, i: Input): seq<Byte>
    requires GoodInput(i)
  {
    if ReadsInput(d) && d.mem.ctx.uartAvail then [LowByte(Tick(d, i).1.data)] else []
  }

  function Arrived(a: Arrivals): seq<Byte> {
    a.before + a.early + a.during + a.late
  }

  /** uart_avail promises a character, and none is being taken. */
  ghost predicate Console(s: State) {
    !s.ctx.uartFetched && (s.ctx.uartAvail ==> s.fifo != [])
  }

  /** What the low half of a tick does to the FIFO. */
  lemma LowConsole(d: Machine, i: Input)
    requires Console(d.mem)
    ensures var (d1, resp) := Low(d, i);
            && d1.mem.fifo == d.mem.fifo + i.arrivals.before && d1.mem.aborted == d.mem.aborted
            && d1.mem.ctx.uartFetched == Fetched(d, i).Some?
            && (ReadsInput(d) ==>
                 resp == Resp(true, Last(d.tx), if Fetched(d, i).Some? then Fetched(d, i).value as Word else 0))
            && (Fetched(d, i).Some? <==> ReadsInput(d) && d.mem.ctx.uartAvail)
            && (ReadsFrom(d, 0x1014) ==> resp == Resp(true, Last(d.tx), if d.mem.ctx.uartAvail then 1 else 0))
  {
  }

  lemma ByteOfWord(b: Byte)
    ensures LowByte(b as Word) == b
  {
  }

  /** The high half pops exactly the character that was fetched. */
  lemma HighConsole(d: Machine, i: Input)
    requires GoodInput(i) && d.tx == d.ntx && (d.mem.ctx.uartFetched ==> d.mem.fifo != [])
    ensures var d' := High(d, i);
            && Console(d'.mem) && d'.tx == d'.ntx
            && (d'.mem.ctx.uartAvail <==> |d'.mem.fifo| > |i.arrivals.late|)
            && d'.mem.fifo == (if d.mem.ctx.uartFetched then d.mem.fifo[1..] else d.mem.fifo)
                              + i.arrivals.early + i.arrivals.during + i.arrivals.late
            && d'.mem.aborted == (d.mem.aborted || Refused(d, i.req))
  {
    HighFacts(d, i);
    HighContext(d, i);
    ClockedContext(d, i);
    PopFacts(Push(d.mem, i.arrivals.early), d.mem.fifo, i.arrivals.early);
  }

  lemma PopFacts(s: State, fifo: seq<Byte>, early: seq<Byte>)
    requires s.fifo == fifo + early && (s.ctx.uartFetched ==> fifo != [])
    ensures Pop(s) == s.(fifo := (if s.ctx.uartFetched then fifo[1..] else fifo) + early)
  {
    if s.ctx.uartFetched {
      assert (fifo + early)[1..] == fifo[1..] + early;
    }
  }

  /** A tick gives the processor the first character in the FIFO, or 0 when uart_avail is clear, and takes out
      of the FIFO what it gave. The status register shows uart_avail, which is set when there was a character at
      the sync. */
  lemma TickConsole(d: Machine, i: Input)
    requires GoodInput(i) && d.tx == d.ntx && Console(d.mem)
    ensures Given(d, i) == ToSeq(Fetched(d, i))
    ensures ReadsInput(d) ==>
              Tick(d, i).1 == Resp(true, Last(d.tx), if Fetched(d, i).Some? then Fetched(d, i).value as Word else 0)
    ensures ReadsFrom(d, 0x1014) ==> Tick(d, i).1 == Resp(true, Last(d.tx), if d.mem.ctx.uartAvail then 1 else 0)
    ensures var d' := Tick(d, i).0;
            && Console(d'.mem) && d'.tx == d'.ntx
            && (d'.mem.ctx.uartAvail <==> |d'.mem.fifo| > |i.arrivals.late|)
            && ToSeq(Fetched(d, i)) + d'.mem.fifo == d.mem.fifo + Arrived(i.arrivals)
            && d'.mem.aborted == (d.mem.aborted || Refused(d, i.req))
  {
    LowFacts(d, i);
    LowConsole(d, i);
    var d1 := Low(d, i).0;
    HighConsole(d1, i);
    Drained(Fetched(d, i), d.mem.fifo, d1.mem.fifo, i.arrivals, Tick(d, i).0.mem.fifo);
    assert Refused(d1, i.req) == Refused(d, i.req);
    if Fetched(d, i).Some? {
      ByteOfWord(Fetched(d, i).value);
    }
  }

  lemma Drained(fetched: Option<Byte>, q: seq<Byte>, q1: seq<Byte>, a: Arrivals, q2: seq<Byte>)
    requires q1 == q + a.before && (fetched.Some? ==> q1 != [] && fetched.value == q1[0])
    requires q2 == (if fetched.Some? then q1[1..] else q1) + a.early + a.during + a.late
    ensures ToSeq(fetched) + q2 == q + Arrived(a)
  {
    assert q + Arrived(a) == q1 + a.early + a.during + a.late;
    if fetched.Some? {
      assert [q1[0]] + q1[1..] == q1;
      assert ToSeq(fetched) + q2 == q1 + a.early + a.during + a.late;
    } else {
      assert ToSeq(fetched) + q2 == q2;
    }
  }

  function GivenAll(d: Machine, ins: seq<Input>): seq<Byte>
    requires GoodInputs(ins)
    decreases |ins|
  {
    if ins == [] then [] else Given(d, ins[0]) + GivenAll(Tick(d, ins[0]).0, ins[1..])
  }

  function ArrivedAll(ins: seq<Input>): seq<Byte> {
    if ins == [] then [] else Arrived(ins[0].arrivals) + ArrivedAll(ins[1..])
  }

  /** No tick of the run makes a store that the source refuses. */
  predicate NoneRefused(d: Machine, ins: seq<Input>)
    requires GoodInputs(ins)
    decreases |ins|
  {
    ins != [] ==> !Refused(d, ins[0].req) && NoneRefused(Tick(d, ins[0]).0, ins[1..])
  }

  /** In every run, wherever the reader thread's pushes fall: the characters that reads returned to the processor,
      followed by those still in the FIFO, are those that were there and those pushed; and the FIFO assertion never fails. */
  lemma {:induction false} InputIsExactlyOnce(d: Machine, ins: seq<Input>)
    requires GoodInputs(ins) && d.tx == d.ntx && Console(d.mem)
    ensures var d' := RunTicks(d, ins);
            && GivenAll(d, ins) + d'.mem.fifo == d.mem.fifo + ArrivedAll(ins)
            && (NoneRefused(d, ins) && !d.mem.aborted ==> !d'.mem.aborted)
    decreases |ins|
  {
    if ins != [] {
      TickConsole(d, ins[0]);
      var d1 := Tick(d, ins[0]).0;
      InputIsExactlyOnce(d1, ins[1..]);
      Flow(Given(d, ins[0]), GivenAll(d1, ins[1..]), RunTicks(d1, ins[1..]).mem.fifo,
           d.mem.fifo, d1.mem.fifo, Arrived(ins[0].arrivals), ArrivedAll(ins[1..]));
    }
  }

  lemma Flow<T>(f0: seq<T>, f: seq<T>, end: seq<T>, q: seq<T>, q1: seq<T>, a0: seq<T>, a: seq<T>)
    requires f0 + q1 == q + a0 && f + end == q1 + a
    ensures (f0 + f) + end == q + (a0 + a)
  {
    assert (f0 + f) + end == f0 + (f + end) == f0 + (q1 + a) == (f0 + q1) + a == (q + a0) + a == q + (a0 + a);
  }

  // ----- Reset -----

  /** The value of the last store to register a in changes. */
  function LastTo(changes: seq<(int, Word)>, a: int): Option<Word>
    decreases |changes|
  {
    if changes == [] then None
    else
      var (addr, data) := changes[|changes| - 1];
      if addr == a then Some(data) else LastTo(changes[..|changes| - 1], a)
  }

  /** Register a after reset and the commit of the stores that were waiting: reset leaves them in the queue. */
  function LeftOver(changes: seq<(int, Word)>, a: int): Word
    requires a in RESET_REGISTERS
  {
    if LastTo(changes, a).Some? then LastTo(changes, a).value else RESET_REGISTERS[a]
  }

  lemma {:induction false} CommitIsLast(changes: seq<(int, Word)>, a: int)
    requires a in RESET_REGISTERS
    ensures Commit(RESET_REGISTERS, changes)[a] == LeftOver(changes, a)
    decreases |changes|
  {
    if changes != [] {
      var init, last := changes[..|changes| - 1], changes[|changes| - 1];
      assert changes == init + [last];
      CommitSnoc(RESET_REGISTERS, init, last.0, last.1);
      CommitIsLast(init, a);
    }
  }

  /** The registers that reset does not clear to zero. */
  lemma ResetValues(a: int)
    requires a in RESET_REGISTERS
    ensures RESET_REGISTERS[a] == if a == 0xf000 then 0xffff else if a == 0xf020 then 0xff else if a == 0xf02c then 0xaaaa
                                  else if a == 0xfff4 then 0xffff_ffff else if a == 0xfff8 || a == 0xfffc then 1 else 0
  {
  }

  /** After the reset of any machine the assumptions of the theorems above hold, nothing is reported or waiting
      on the consoles, and each register is going to hold the last store that was still waiting for it when the
      machine was reset, or else its reset value. */
  lemma ResetSettles(d: Machine)
    ensures var r := AfterReset(d);
            && Settled(r) && Console(r.mem) && r.mem.fifo == [] && Waiting(r).None? && Reported(r).None?
            && r.mem.mem == RESET_REGISTERS
            && forall a :: a in RESET_REGISTERS ==> Pending(r.mem, a) == LeftOver(d.mem.changes, a)
  {
    forall a | a in RESET_REGISTERS
      ensures Pending(AfterReset(d).mem, a) == LeftOver(d.mem.changes, a)
    {
      CommitIsLast(d.mem.changes, a);
    }
  }

  /** A run after reset reads a register as if it had just been reset exactly when no store that waits at the
      reset gives it another value; */
  lemma ResetIsCompleteExactly(d: Machine, a: int)
    requires a in RESET_REGISTERS
    ensures Pending(AfterReset(d).mem, a) == RESET_REGISTERS[a]
            <==> LastTo(d.mem.changes, a) in {None, Some(RESET_REGISTERS[a])}
  {
    ResetSettles(d);
  }

  /** for example, a 1 stored to NUM in the cycle before the reset comes back after it. */
  lemma WaitingStoreOutlivesReset(d: Machine)
    requires d.mem.changes == [(NUM, 1)]
    ensures Pending(AfterReset(d).mem, NUM) == 1 && RESET_REGISTERS[NUM] == 0
  {
    ResetSettles(d);
  }
}
