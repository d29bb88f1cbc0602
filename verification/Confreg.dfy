/** The CONFREG peripheral (confreg.h, confreg.cpp): a register file whose stores take effect at the next sync,
    a timer, a virtual UART, and a UART whose input FIFO another thread fills. */
module Confreg {
  import opened CBus
  import opened Common

  type Byte = bv8

  const ADDR_MASK_PLUS_1: int := 0x1_0000

  const UART_RXD: int := 0x1000
  const UART_TXD: int := 0x1000
  const UART_LSR: int := 0x1014
  const NUM: int := 0xf010
  const TIMER: int := 0xe000
  const IO_SIMU: int := 0xffec
  const VIRTUAL_UART: int := 0xfff0
  const SIMU_FLAG: int := 0xfff4
  const OPEN_TRACE: int := 0xfff8
  const NUM_MONITOR: int := 0xfffc

  /** The register file after reset. */
  const RESET_REGISTERS: map<int, Word> := map[
    0x8000 := 0, 0x8004 := 0, 0x8008 := 0, 0x800c := 0, 0x8010 := 0, 0x8014 := 0, 0x8018 := 0, 0x801c := 0,
    0xf000 := 0x0000ffff, 0xf004 := 0, 0xf008 := 0, NUM := 0,
    0xf020 := 0x000000ff, 0xf024 := 0, 0xf028 := 0, 0xf02c := 0x0000aaaa,
    TIMER := 0, IO_SIMU := 0, VIRTUAL_UART := 0, SIMU_FLAG := 0xffffffff, OPEN_TRACE := 1, NUM_MONITOR := 1]

  datatype Context = Context(
    uartAvail: bool, uartWritten: bool, uartFetched: bool, uartData: Byte,
    vuartWritten: bool, vuartData: Byte, openTrace: bool, numMonitor: bool, num: Word)

  const RESET_CONTEXT: Context := Context(false, false, false, 0, false, 0, true, true, 0)

  /** `aborted` records a failed assertion or a panic; `opty` says whether a terminal is connected and
      `sent` holds the characters written to it. */
  datatype State = State(
    ctx: Context, ctx0: Context, fifo: seq<Byte>, opty: bool, sent: seq<Byte>,
    mem: map<int, Word>, changes: seq<(int, Word)>, aborted: bool)

  function Reset(s: State): State {
    s.(ctx := RESET_CONTEXT, ctx0 := RESET_CONTEXT, fifo := [], mem := RESET_REGISTERS)
  }

  function Register(addr: int): int {
    addr % ADDR_MASK_PLUS_1
  }

  function LowByte(w: Word): Byte {
    (w & 0xff) as Byte
  }

  function Flag(b: bool): Word {
    if b then 1 else 0
  }

  function Load(s: State, address: int): (State, Word) {
    var addr := Register(address);
    if addr == UART_LSR then (s, Flag(s.ctx.uartAvail))
    else if addr == UART_RXD then
      if !s.ctx.uartAvail then (s, 0)
      else if s.fifo == [] then (s.(aborted := true), 0)
      else (s.(ctx := s.ctx.(uartFetched := true)), s.fifo[0] as Word)
    else (s, if addr in s.mem then s.mem[addr] else 0)
  }

  function SwapBytes(data: Word): Word {
    ((data >> 16) & 0xffff) | ((data << 16) & 0xffff0000)
  }

  /** What a store of data leaves in register addr. */
  function Normal(addr: int, data: Word): Word {
    if addr == VIRTUAL_UART then data & 0xff
    else if addr == SIMU_FLAG then 0xffffffff
    else if addr == IO_SIMU then SwapBytes(data)
    else if addr == OPEN_TRACE then Flag(data != 0)
    else if addr == NUM_MONITOR then data & 1
    else data
  }

  function Noted(ctx: Context, addr: int, data: Word): Context {
    if addr == VIRTUAL_UART then ctx.(vuartWritten := true, vuartData := LowByte(data))
    else if addr == NUM then ctx.(num := data)
    else if addr == OPEN_TRACE then ctx.(openTrace := data != 0)
    else if addr == NUM_MONITOR then ctx.(numMonitor := data & 1 != 0)
    else ctx
  }

  function Store(s: State, address: int, data: Word, mask: Word): State {
    var addr := Register(address);
    if addr == UART_LSR then s.(aborted := true)
    else if addr == UART_TXD then
      if mask != 0xff then s.(aborted := true)
      else s.(ctx := s.ctx.(uartWritten := true, uartData := LowByte(data)))
    else s.(ctx := Noted(s.ctx, addr, data), changes := s.changes + [(addr, Normal(addr, data))])
  }

  /** Registers mem after the stores in changes, in order; unknown destinations are ignored. */
  function Commit(mem: map<int, Word>, changes: seq<(int, Word)>): (m: map<int, Word>)
    ensures m.Keys == mem.Keys
  {
    if changes == [] then mem
    else
      var (addr, data) := changes[0];
      Commit(if addr in mem then mem[addr := data] else mem, changes[1..])
  }

  /** The UART half of sync; the reader thread may push between this and the rest. */
  function Pop(s: State): State {
    if !s.ctx.uartFetched then s
    else if s.fifo == [] then s.(aborted := true)
    else s.(fifo := s.fifo[1..])
  }

  /** mem[TIMER]++ creates the entry when it is missing. */
  function Ticked(mem: map<int, Word>): map<int, Word> {
    mem[TIMER := (if TIMER in mem then mem[TIMER] else 0) + 1]
  }

  function Settle(s: State): State {
    s.(sent := if s.ctx.uartWritten && s.opty then s.sent + [s.ctx.uartData] else s.sent,
       ctx0 := s.ctx,
       ctx := s.ctx.(uartAvail := s.fifo != [], uartWritten := false, uartFetched := false, vuartWritten := false),
       mem := Ticked(Commit(s.mem, s.changes)),
       changes := [])
  }

  /** The reader thread pushes characters. */
  function Push(s: State, cs: seq<Byte>): State {
    s.(fifo := s.fifo + cs)
  }

  /** sync(), with the characters that arrive while it runs. */
  function Sync(s: State, arriving: seq<Byte>): State {
    Settle(Push(Pop(s), arriving))
  }

  const BUS: Bus<State> := Bus((s, a) => Load(s, a), (s, a, d, m) => Store(s, a, d, m), s => Reset(s))

  /** The peripheral object of the source, updated in place. */
  class Device {
    var ctx: Context
    var ctx0: Context
    var fifo: seq<Byte>
    var opty: bool
    var sent: seq<Byte>
    var mem: map<int, Word>
    var changes: seq<(int, Word)>
    var aborted: bool

    function View(): State
      reads this
    {
      State(ctx, ctx0, fifo, opty, sent, mem, changes, aborted)
    }

    method ResetDevice()
      modifies this
      ensures View() == Reset(old(View()))
    {
      ctx := RESET_CONTEXT;
      ctx0 := RESET_CONTEXT;
      fifo := [];
      mem := RESET_REGISTERS;
    }

    method LoadRegister(address: int) returns (value: Word)
      modifies this
      ensures (View(), value) == Load(old(View()), address)
    {
      var addr := Register(address);
      if addr == UART_LSR {
        return Flag(ctx.uartAvail);
      } else if addr == UART_RXD {
        if ctx.uartAvail {
          if fifo == [] {
            aborted := true;
            return 0;
          }
          ctx := ctx.(uartFetched := true);
          return fifo[0] as Word;
        }
        return 0;
      }
      if addr !in mem {
        return 0;
      }
      return mem[addr];
    }

    method StoreRegister(address: int, data0: Word, mask: Word)
      modifies this
      ensures View() == Store(old(View()), address, data0, mask)
    {
      var addr, data := Register(address), data0;
      if addr == UART_LSR {
        aborted := true;
        return;
      }
      if addr == UART_TXD {
        if mask != 0xff {
          aborted := true;
          return;
        }
        ctx := ctx.(uartWritten := true, uartData := LowByte(data));
        return;
      }
      data := NoteStore(addr, data);
      changes := changes + [(addr, data)];
    }

    /** The cases of store() that only adjust the data and the context. */
    method NoteStore(addr: int, data0: Word) returns (data: Word)
      modifies this`ctx
      ensures ctx == Noted(old(ctx), addr, data0) && data == Normal(addr, data0)
    {
      data := data0;
      if addr == VIRTUAL_UART {
        ctx := ctx.(vuartWritten := true, vuartData := LowByte(data));
        data := data & 0xff;
      } else if addr == NUM {
        ctx := ctx.(num := data);
      } else if addr == SIMU_FLAG {
        data := 0xffffffff;
      } else if addr == IO_SIMU {
        data := SwapBytes(data);
      } else if addr == OPEN_TRACE {
        ctx := ctx.(openTrace := data != 0);
        data := Flag(data != 0);
      } else if addr == NUM_MONITOR {
        data := data & 1;
        ctx := ctx.(numMonitor := data != 0);
      }
    }

    method SyncDevice(arriving: seq<Byte>)
      modifies this
      ensures View() == Sync(old(View()), arriving)
    {
      PopInput();
      fifo := fifo + arriving;
      SettleRest();
    }

    /** sync() up to where the reader thread may come in. */
    method PopInput()
      modifies this`fifo, this`aborted
      ensures View() == Pop(old(View()))
    {
      if ctx.uartFetched {
        if fifo == [] {
          aborted := true;
        } else {
          fifo := fifo[1..];
        }
      }
    }

    /** The rest of sync(). */
    method SettleRest()
      modifies this
      ensures View() == Settle(old(View()))
    {
      ghost var t := Settle(View());
      if ctx.uartWritten && opty {
        sent := sent + [ctx.uartData];
      }
      assert sent == t.sent;
      ctx0 := ctx;
      ctx := ctx.(uartAvail := fifo != [], uartWritten := false, uartFetched := false, vuartWritten := false);
      assert ctx0 == t.ctx0 && ctx == t.ctx;
      CommitChanges();
      mem := Ticked(mem);
      assert mem == t.mem;
      assert fifo == t.fifo && opty == t.opty && aborted == t.aborted && changes == t.changes;
    }

    /** The commit loop of sync(). */
    method CommitChanges()
      modifies this`mem, this`changes
      ensures mem == Commit(old(mem), old(changes)) && changes == []
    {
      var i := 0;
      while i < |changes|
        invariant 0 <= i <= |changes| && changes == old(changes)
        invariant Commit(mem, changes[i..]) == Commit(old(mem), changes)
      {
        var (addr, data) := changes[i];
        assert changes[i..][0] == changes[i] && changes[i..][1..] == changes[i + 1..];
        if addr in mem {
          mem := mem[addr := data];
        }
        i := i + 1;
      }
      changes := [];
    }
  }
}
