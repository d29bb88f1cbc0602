/** What leaves CONFREG besides the virtual UART: the characters put on the UART's terminal, and the settings that
    the simulator reads between ticks (confreg.h, confreg.cpp). */
module Panel {
  import opened Common
  import opened CBus
  import opened Confreg
  import opened RefCpu

  // ----- One tick -----

  /** The settings that programs make, as they are now and as the simulator sees them. */
  datatype Settings = Settings(openTrace: bool, numMonitor: bool, num: Word)

  function SettingsOf(c: Context): Settings {
    Settings(c.openTrace, c.numMonitor, c.num)
  }

  function Shown(d: Machine): Settings {
    SettingsOf(d.mem.ctx0)
  }

  function Made(d: Machine): Settings {
    SettingsOf(d.mem.ctx)
  }

  /** The settings after a store of data to register a. */
  function StoreUpdates(s: Settings, a: int, data: Word): Settings {
    Changed(s, a, data, data & 1 != 0, data != 0)
  }

  function Changed(s: Settings, a: int, data: Word, odd: bool, some: bool): Settings {
    if a == 0xf010 then s.(num := data)
    else if a == 0xfff8 then s.(openTrace := some)
    else if a == 0xfffc then s.(numMonitor := odd)
    else s
  }

  predicate Storing(d: Machine) {
    d.enable && d.tx.busy && d.tx.isWrite
  }

  /** The settings after this tick's store. */
  function Updated(s: Settings, d: Machine, req: Req): Settings {
    if Storing(d) then StoreUpdates(s, d.tx.addr % 0x1_0000, req.data) else s
  }

  function LowestByte(data: Word): Byte {
    (data & 0xff) as Byte
  }

  /** The character that this tick stores to UART_TXD; a store of another width is refused. */
  function Put(d: Machine, req: Req): Option<Byte> {
    if Storing(d) && d.tx.addr % 0x1_0000 == 0x1000 && req.strobe == 1 then Some(LowestByte(req.data)) else None
  }

  /** The character that the next sync sends. */
  function Unsent(d: Machine): Option<Byte> {
    if d.mem.ctx.uartWritten then Some(d.mem.ctx.uartData) else None
  }

  lemma NotedSettings(ctx: Context, a: int, data: Word)
    ensures var c := Noted(ctx, a, data);
            && SettingsOf(c) == StoreUpdates(SettingsOf(ctx), a, data)
            && c.uartWritten == ctx.uartWritten && c.uartData == ctx.uartData
  {
    if a == VIRTUAL_UART {
      VuartKeeps(ctx, LowByte(data));
    } else {
      NotedElse(ctx, a, data);
      ElseChanges(ctx, a, data, data & 1 != 0, data != 0, Noted(ctx, a, data));
    }
  }

  lemma VuartKeeps(ctx: Context, b: Byte)
    ensures var c := ctx.(vuartWritten := true, vuartData := b);
            SettingsOf(c) == SettingsOf(ctx) && c.uartWritten == ctx.uartWritten && c.uartData == ctx.uartData
  {
  }

  lemma NotedElse(ctx: Context, a: int, data: Word)
    requires a != VIRTUAL_UART
    ensures Noted(ctx, a, data)
            == if a == NUM then ctx.(num := data)
               else if a == OPEN_TRACE then ctx.(openTrace := data != 0)
               else if a == NUM_MONITOR then ctx.(numMonitor := data & 1 != 0)
               else ctx
  {
  }

  lemma ElseChanges(ctx: Context, a: int, data: Word, odd: bool, some: bool, c: Context)
    requires c == if a == NUM then ctx.(num := data)
                  else if a == OPEN_TRACE then ctx.(openTrace := some)
                  else if a == NUM_MONITOR then ctx.(numMonitor := odd)
                  else ctx
    ensures SettingsOf(c) == Changed(SettingsOf(ctx), a, data, odd, some)
    ensures c.uartWritten == ctx.uartWritten && c.uartData == ctx.uartData
  {
  }

  lemma StoreSettings(s: State, address: int, data: Word, mask: Word)
    ensures var s' := Store(s, address, data, mask); var a := address % 0x1_0000;
            && s'.ctx0 == s.ctx0 && s'.sent == s.sent && s'.opty == s.opty
            && SettingsOf(s'.ctx) == StoreUpdates(SettingsOf(s.ctx), a, data)
            && (if a == 0x1000 && mask == 0xff
                then s'.ctx.uartWritten && s'.ctx.uartData == LowestByte(data)
                else s'.ctx.uartWritten == s.ctx.uartWritten && s'.ctx.uartData == s.ctx.uartData)
  {
    NotedSettings(s.ctx, address % 0x1_0000, data);
  }

  lemma OneByteStrobe(strobe: Strobe)
    ensures STROBE_TO_MASK[strobe] == 0xff <==> strobe == 1
  {
  }

  /** The sync of a tick. */
  lemma ClockedPanel(d: Machine, i: Input)
    ensures var s := Clocked(d, i);
            && SettingsOf(s.ctx0) == SettingsOf(s.ctx) == Made(d) && !s.ctx.uartWritten
            && s.opty == d.mem.opty
            && s.sent == d.mem.sent + if d.mem.opty then ToSeq(Unsent(d)) else []
  {
    if !(d.mem.ctx.uartWritten && d.mem.opty) {
      assert d.mem.sent + [] == d.mem.sent;
    }
  }

  lemma HighPanel(d: Machine, i: Input)
    requires GoodInput(i) && d.tx == d.ntx
    ensures var d' := High(d, i);
            && Shown(d') == Made(d) && Made(d') == Updated(Made(d), d, i.req)
            && d'.mem.opty == d.mem.opty && Unsent(d') == Put(d, i.req)
            && d'.mem.sent == d.mem.sent + if d.mem.opty then ToSeq(Unsent(d)) else []
  {
    HighFacts(d, i);
    ClockedPanel(d, i);
    EdgePanel(d, i, Clocked(d, i), High(d, i).mem);
  }

  /** The device's edge, after the sync that left s. */
  lemma EdgePanel(d: Machine, i: Input, s: State, m: State)
    requires m == Push(if Storing(d) then Store(s, d.tx.addr, i.req.data, STROBE_TO_MASK[i.req.strobe]) else s, i.arrivals.late)
    requires !s.ctx.uartWritten
    ensures m.ctx0 == s.ctx0 && m.sent == s.sent && m.opty == s.opty
    ensures SettingsOf(m.ctx) == Updated(SettingsOf(s.ctx), d, i.req)
    ensures (if m.ctx.uartWritten then Some(m.ctx.uartData) else None) == Put(d, i.req)
  {
    if Storing(d) {
      OneByteStrobe(i.req.strobe);
      StoreSettings(s, d.tx.addr, i.req.data, STROBE_TO_MASK[i.req.strobe]);
    }
  }

  lemma SamePanel(d: Machine, d1: Machine, req: Req)
    requires d1 == d.(mem := d1.mem) && d1.mem.ctx == d.mem.ctx.(uartFetched := d1.mem.ctx.uartFetched)
    ensures Made(d1) == Made(d) && Unsent(d1) == Unsent(d) && Put(d1, req) == Put(d, req)
    ensures Updated(Made(d1), d1, req) == Updated(Made(d), d, req)
  {
  }

  /** The simulator sees the settings one tick after they are made, and a character is sent one tick after it is
      stored, if there is a terminal. */
  lemma TickShows(d: Machine, i: Input)
    requires GoodInput(i) && d.tx == d.ntx
    ensures var d' := Tick(d, i).0;
            && d'.tx == d'.ntx && d'.mem.opty == d.mem.opty
            && Shown(d') == Made(d) && Made(d') == Updated(Made(d), d, i.req)
            && Unsent(d') == Put(d, i.req)
            && d'.mem.sent == d.mem.sent + if d.mem.opty then ToSeq(Unsent(d)) else []
  {
    var d1 := Low(d, i).0;
    LowFacts(d, i);
    SamePanel(d, d1, i.req);
    HighPanel(d1, i);
    HighFacts(d1, i);
  }

  /** After reset tracing and the number monitor are on, the number is 0, and nothing is waiting to be sent. */
  lemma ResetShows(d: Machine)
    ensures var r := AfterReset(d);
            && Shown(r) == Made(r) == Settings(true, true, 0) && Unsent(r).None?
            && r.mem.sent == d.mem.sent && r.mem.opty == d.mem.opty
  {
  }

  // ----- Runs -----

  /** The characters stored to UART_TXD in the run. */
  function Puts(d: Machine, ins: seq<Input>): seq<Byte>
    requires GoodInputs(ins)
    decreases |ins|
  {
    if ins == [] then [] else ToSeq(Put(d, ins[0].req)) + Puts(Tick(d, ins[0]).0, ins[1..])
  }

  /** In every run: with a terminal, the characters sent, followed by the one that waits for the next sync, are those
      sent and waiting before and those stored, each once and in order; without one nothing is sent. */
  lemma {:induction false} UartOutputIsExactlyOnce(d: Machine, ins: seq<Input>)
    requires GoodInputs(ins) && d.tx == d.ntx
    ensures var d' := RunTicks(d, ins);
            if d.mem.opty
            then d'.mem.sent + ToSeq(Unsent(d')) == d.mem.sent + ToSeq(Unsent(d)) + Puts(d, ins)
            else d'.mem.sent == d.mem.sent
    decreases |ins|
  {
    if ins == [] {
      assert d.mem.sent + ToSeq(Unsent(d)) + [] == d.mem.sent + ToSeq(Unsent(d));
    } else {
      TickShows(d, ins[0]);
      var d1 := Tick(d, ins[0]).0;
      UartOutputIsExactlyOnce(d1, ins[1..]);
      if d.mem.opty {
        Regroup(d.mem.sent, ToSeq(Unsent(d)), ToSeq(Put(d, ins[0].req)), Puts(d1, ins[1..]));
      } else {
        assert d.mem.sent + [] == d.mem.sent;
      }
    }
  }

  lemma Regroup<T>(a: seq<T>, b: seq<T>, c: seq<T>, r: seq<T>)
    ensures (a + b) + c + r == a + b + (c + r)
  {
  }

  /** The settings after the stores of the run, in order. */
  function UpdatedAll(s: Settings, d: Machine, ins: seq<Input>): Settings
    requires GoodInputs(ins)
    decreases |ins|
  {
    if ins == [] then s else UpdatedAll(Updated(s, d, ins[0].req), Tick(d, ins[0]).0, ins[1..])
  }

  /** In every run the settings are those of the latest stores, and the simulator sees them one tick later. */
  lemma {:induction false} SettingsAreLatest(d: Machine, ins: seq<Input>, i: Input)
    requires GoodInputs(ins) && GoodInput(i) && d.tx == d.ntx
    ensures Shown(Tick(RunTicks(d, ins), i).0) == UpdatedAll(Made(d), d, ins)
    decreases |ins|
  {
    TickShows(d, if ins == [] then i else ins[0]);
    if ins != [] {
      SettingsAreLatest(Tick(d, ins[0]).0, ins[1..], i);
    }
  }
}
