/** The whole way of the data: the helpers of the pipelined driver, the pipeline, a block memory as the slave, and
    what all that amounts to on a plain array of bytes. */
module DataPath {
  import A = Axi
  import opened Common
  import opened LoadOps
  import B = BlockMemory
  import C = CBus
  import D = DBusPipeline
  import P = PipelineTheorems

  type Access = D.Access

  // ----- The specification: accesses to an array of bytes, one at a time -----

  /** The bytes of the memory, the four bytes of each variable, and whether every expectation so far was met. */
  datatype Plain = Plain(bytes: seq<Word>, vars: map<int, seq<Word>>, met: bool)

  predicate Fits(a: Access, size: int) {
    D.Aligned(a) && 0 <= a.addr && a.addr + a.width <= size
  }

  predicate AllFit(accesses: seq<Access>, size: int) {
    forall i :: 0 <= i < |accesses| ==> Fits(accesses[i], size)
  }

  predicate FourBytes(vars: map<int, seq<Word>>) {
    forall v :: v in vars ==> |vars[v]| == 4
  }

  /** The bytes of a variable; all zero before it is first written. */
  function Held(vars: map<int, seq<Word>>, v: int): seq<Word> {
    if v in vars then vars[v] else [0, 0, 0, 0]
  }

  /** A store overwrites its bytes in the memory, a load its bytes of the variable, and an expectation compares. */
  function Do(p: Plain, a: Access): (p': Plain)
    requires Fits(a, |p.bytes|) && FourBytes(p.vars)
    ensures |p'.bytes| == |p.bytes| && FourBytes(p'.vars)
  {
    match a
    case StoreAccess(width, addr, data) => p.(bytes := B.Overwrite(p.bytes, addr, B.LowBytes(data, width)))
    case LoadAccess(width, addr, dest) =>
      if dest < 0 then p
      else p.(vars := p.vars[dest := p.bytes[addr..addr + width] + Held(p.vars, dest)[width..]])
    case ExpectAccess(width, addr, data) =>
      p.(met := p.met && p.bytes[addr..addr + width] == B.LowBytes(data, width))
  }

  /** The first n accesses. */
  function DoAll(p: Plain, accesses: seq<Access>, n: nat): (p': Plain)
    requires n <= |accesses| && AllFit(accesses, |p.bytes|) && FourBytes(p.vars)
    ensures |p'.bytes| == |p.bytes| && FourBytes(p'.vars)
  {
    if n == 0 then p else Do(DoAll(p, accesses, n - 1), accesses[n - 1])
  }

  // ----- The implementation -----

  /** The slave: a block memory behind the bus. */
  function Exec(ws: seq<Word>, req: D.Request): (seq<Word>, Word) {
    if !(0 <= req.addr < 4 * |ws|) then (ws, 0)
    else
      match req
      case Load(addr, _) => (ws, ws[addr / 4])
      case Store(addr, _, strobe, data) => (B.StoreWord(ws, addr, data, C.STROBE_TO_MASK[strobe]), 0)
  }

  const EXEC: P.Exec<seq<Word>> := (ws, req) => Exec(ws, req)

  function TasksOf(accesses: seq<Access>): (ts: seq<D.Task>)
    requires forall i :: 0 <= i < |accesses| ==> D.Aligned(accesses[i])
    ensures |ts| == |accesses|
  {
    seq(|accesses|, i requires 0 <= i < |accesses| => D.TaskOf(accesses[i]))
  }

  function VarBytes(vars: map<int, Word>): (r: map<int, seq<Word>>)
    ensures FourBytes(r)
  {
    map v | v in vars :: B.LowBytes(vars[v], 4)
  }

  /** Memory and outcome of the driver, byte by byte. */
  function Seen(ws: seq<Word>, o: D.Outcome): Plain {
    Plain(B.Bytes(ws), VarBytes(o.vars), o.met)
  }

  // ----- Refinement -----

  /** The request of a task, and the task's effect. */
  function Performed(ws: seq<Word>, o: D.Outcome, t: D.Task): (seq<Word>, D.Outcome) {
    var (ws', w) := Exec(ws, if t.strobe == 0 then D.Load(t.addr, t.size) else D.Store(t.addr, t.size, t.strobe, t.data));
    (ws', D.Retire(o, t, w))
  }

  lemma StrobeOfWidth(width: int, addr: int)
    requires IsWidth(width)
    ensures StrobeOf(Parse(width, addr)) != 0 && Parse(width, addr) != DISCARD
  {
  }

  lemma StorePerformed(ws: seq<Word>, o: D.Outcome, a: Access)
    requires a.StoreAccess? && Fits(a, 4 * |ws|)
    ensures Seen(Performed(ws, o, D.TaskOf(a)).0, Performed(ws, o, D.TaskOf(a)).1) == Do(Seen(ws, o), a)
    ensures |Performed(ws, o, D.TaskOf(a)).0| == |ws|
  {
    StrobeOfWidth(a.width, a.addr);
    B.OpRefines(ws, B.StoreOp(a.width, a.addr, a.data));
    assert Performed(ws, o, D.TaskOf(a)) == (B.OnWords(ws, B.StoreOp(a.width, a.addr, a.data)), o);
  }

  /** Lane k of an aligned access is its byte k. */
  lemma LaneIndex(width: int, addr: int, k: int)
    requires IsWidth(width) && addr % width == 0 && 0 <= addr && 0 <= k < width
    ensures B.FirstLane(Parse(width, addr)) + k == (addr + k) % 4 && addr / 4 == (addr + k) / 4
  {
    B.ParsedLanes(width, addr);
    B.InOneWord(addr, k);
  }

  /** The bytes of an aligned access, in the word that holds them. */
  lemma BytesInWord(ws: seq<Word>, width: int, addr: int, k: int)
    requires IsWidth(width) && addr % width == 0 && 0 <= addr && addr + width <= 4 * |ws| && 0 <= k < width
    ensures B.Lane(ws[addr / 4], B.FirstLane(Parse(width, addr)) + k) == B.Bytes(ws)[addr + k]
  {
    LaneIndex(width, addr, k);
    B.ByteAt(ws, addr + k);
  }

  lemma LoadPerformed(ws: seq<Word>, o: D.Outcome, a: Access)
    requires a.LoadAccess? && Fits(a, 4 * |ws|)
    ensures Seen(Performed(ws, o, D.TaskOf(a)).0, Performed(ws, o, D.TaskOf(a)).1) == Do(Seen(ws, o), a)
    ensures Performed(ws, o, D.TaskOf(a)).0 == ws
  {
    if a.dest < 0 {
      Discarded(o, D.TaskOf(a), ws[a.addr / 4]);
    } else {
      var cell := if a.dest in o.vars then o.vars[a.dest] else 0;
      var cell' := Stored(Parse(a.width, a.addr), ws[a.addr / 4], cell);
      LoadRetired(o, D.TaskOf(a), ws[a.addr / 4], cell, cell');
      LoadedBytes(ws, a.width, a.addr, cell);
      HeldBytes(o.vars, a.dest);
      VarWritten(o.vars, a.dest, cell');
    }
  }

  lemma LoadRetired(o: D.Outcome, t: D.Task, w: Word, cell: Word, cell': Word)
    requires t.dest >= 0 && cell == (if t.dest in o.vars then o.vars[t.dest] else 0) && cell' == Stored(t.op, w, cell)
    ensures D.Retire(o, t, w) == o.(vars := o.vars[t.dest := cell'])
  {
  }

  lemma HeldBytes(vars: map<int, Word>, v: int)
    ensures Held(VarBytes(vars), v) == B.LowBytes(if v in vars then vars[v] else 0, 4)
  {
    ZeroBytes();
  }

  lemma ZeroBytes()
    ensures B.LowBytes(0, 4) == [0, 0, 0, 0]
  {
    assert forall k :: 0 <= k < 4 ==> B.Lane(0, k) == 0;
  }

  lemma VarWritten(vars: map<int, Word>, v: int, cell: Word)
    ensures VarBytes(vars[v := cell]) == VarBytes(vars)[v := B.LowBytes(cell, 4)]
  {
  }

  lemma Discarded(o: D.Outcome, t: D.Task, w: Word)
    requires t.dest < 0 && D.IsLoad(t) && t.op == DISCARD
    ensures D.Retire(o, t, w) == o
  {
    B.MaskLanes(DISCARD, t.data, w);
  }

  lemma LoadedBytes(ws: seq<Word>, width: int, addr: int, cell: Word)
    requires IsWidth(width) && addr % width == 0 && 0 <= addr && addr + width <= 4 * |ws|
    ensures B.LowBytes(Stored(Parse(width, addr), ws[addr / 4], cell), 4)
            == B.Bytes(ws)[addr..addr + width] + B.LowBytes(cell, 4)[width..]
  {
    var op := Parse(width, addr);
    var cell' := Stored(op, ws[addr / 4], cell);
    B.ParsedLanes(width, addr);
    forall k | 0 <= k < 4
      ensures B.Lane(cell', k) == if k < width then B.Bytes(ws)[addr + k] else B.Lane(cell, k)
    {
      B.StoredLane(op, ws[addr / 4], cell, k);
      if k < width {
        BytesInWord(ws, width, addr, k);
      }
    }
  }

  lemma ExpectPerformed(ws: seq<Word>, o: D.Outcome, a: Access)
    requires a.ExpectAccess? && Fits(a, 4 * |ws|)
    ensures Seen(Performed(ws, o, D.TaskOf(a)).0, Performed(ws, o, D.TaskOf(a)).1) == Do(Seen(ws, o), a)
    ensures Performed(ws, o, D.TaskOf(a)).0 == ws
  {
    ExpectedBytes(ws, a.width, a.addr, a.data);
    ExpectRetired(o, D.TaskOf(a), ws[a.addr / 4], Parse(a.width, a.addr), a.data);
  }

  lemma ExpectRetired(o: D.Outcome, t: D.Task, w: Word, op: LoadOp, data: Word)
    requires t.strobe == 0 && t.dest == -1 && t.data == Place(op, data) && t.op == op
    ensures D.Retire(o, t, w) == o.(met := o.met && SameUnder(Place(op, data), w, MaskOf(op)))
  {
  }

  /** The masked comparison of placed data is the comparison of their bytes. */
  lemma ExpectedBytes(ws: seq<Word>, width: int, addr: int, data: Word)
    requires IsWidth(width) && addr % width == 0 && 0 <= addr && addr + width <= 4 * |ws|
    ensures var op := Parse(width, addr);
            SameUnder(Place(op, data), ws[addr / 4], MaskOf(op)) <==> B.Bytes(ws)[addr..addr + width] == B.LowBytes(data, width)
  {
    var op, w := Parse(width, addr), ws[addr / 4];
    B.ParsedLanes(width, addr);
    B.PlacedAgrees(op, data, w);
    BytesExpected(ws, width, addr, data, op, w);
  }

  lemma BytesExpected(ws: seq<Word>, width: int, addr: int, data: Word, op: LoadOp, w: Word)
    requires IsWidth(width) && addr % width == 0 && 0 <= addr && addr + width <= 4 * |ws|
    requires op == Parse(width, addr) && w == ws[addr / 4]
    ensures B.Bytes(ws)[addr..addr + width] == B.LowBytes(data, width)
            <==> forall k :: 0 <= k < width ==> B.Expected(op, data, w, k)
  {
    var bs, cs := B.Bytes(ws)[addr..addr + width], B.LowBytes(data, width);
    forall k | 0 <= k < width
      ensures B.Expected(op, data, w, k) <==> bs[k] == cs[k]
    {
      ByteExpected(ws, width, addr, data, op, w, k, bs, cs);
    }
    SameSequence(bs, cs, width, op, data, w);
  }

  lemma ByteExpected(ws: seq<Word>, width: int, addr: int, data: Word, op: LoadOp, w: Word, k: int, bs: seq<Word>, cs: seq<Word>)
    requires IsWidth(width) && addr % width == 0 && 0 <= addr && addr + width <= 4 * |ws| && 0 <= k < width
    requires op == Parse(width, addr) && w == ws[addr / 4]
    requires bs == B.Bytes(ws)[addr..addr + width] && cs == B.LowBytes(data, width)
    ensures B.Expected(op, data, w, k) <==> bs[k] == cs[k]
  {
    BytesInWord(ws, width, addr, k);
    assert bs[k] == B.Bytes(ws)[addr + k];
  }

  lemma SameSequence(bs: seq<Word>, cs: seq<Word>, width: int, op: LoadOp, data: Word, w: Word)
    requires |bs| == |cs| == width
    requires forall k :: 0 <= k < width ==> (B.Expected(op, data, w, k) <==> bs[k] == cs[k])
    ensures bs == cs <==> forall k :: 0 <= k < width ==> B.Expected(op, data, w, k)
  {
    if bs != cs {
      var k :| 0 <= k < width && bs[k] != cs[k];
    }
  }

  /** One task of a helper is one access to the bytes. */
  lemma PerformedIsDone(ws: seq<Word>, o: D.Outcome, a: Access)
    requires Fits(a, 4 * |ws|)
    ensures var (ws', o') := Performed(ws, o, D.TaskOf(a));
            |ws'| == |ws| && Seen(ws', o') == Do(Seen(ws, o), a)
  {
    match a
    case LoadAccess(_, _, _) => LoadPerformed(ws, o, a);
    case StoreAccess(_, _, _) => StorePerformed(ws, o, a);
    case ExpectAccess(_, _, _) => ExpectPerformed(ws, o, a);
  }

  /** Memory and outcome after the first n tasks, executed one at a time. */
  function AfterTasks(ws: seq<Word>, o: D.Outcome, ts: seq<D.Task>, n: nat): (seq<Word>, D.Outcome)
    requires n <= |ts|
  {
    var (ws', answers) := P.Serial(EXEC, ws, ts, n);
    (ws', P.RetireAll(o, ts, answers, n))
  }

  /** One-at-a-time execution of the helpers' tasks is that of the accesses. */
  lemma {:induction false} SerialIsBytewise(ws: seq<Word>, o: D.Outcome, accesses: seq<Access>, n: nat)
    requires n <= |accesses| && AllFit(accesses, 4 * |ws|)
    ensures var (ws', o') := AfterTasks(ws, o, TasksOf(accesses), n);
            |ws'| == |ws| && Seen(ws', o') == DoAll(Seen(ws, o), accesses, n)
  {
    if n > 0 {
      SerialIsBytewise(ws, o, accesses, n - 1);
      var (ws', o') := AfterTasks(ws, o, TasksOf(accesses), n - 1);
      PerformedIsDone(ws', o', accesses[n - 1]);
      SerialStep(ws, o, TasksOf(accesses), n - 1);
    }
  }

  lemma SerialStep(ws: seq<Word>, o: D.Outcome, ts: seq<D.Task>, n: nat)
    requires n < |ts|
    ensures var (ws', o') := AfterTasks(ws, o, ts, n); AfterTasks(ws, o, ts, n + 1) == Performed(ws', o', ts[n])
  {
    var (ws', answers) := P.Serial(EXEC, ws, ts, n);
    var (ws'', answers') := P.Serial(EXEC, ws, ts, n + 1);
    P.RetireOfPrefix(o, ts, [], answers, [answers'[n]], n);
    assert ts + [] == ts && answers' == answers + [answers'[n]];
  }

  /** In every run that has emptied both queues, whatever accesses the helpers were asked for and whenever the slave
      accepted and answered: memory, variables and expectations are byte by byte those of the accesses done one at
      a time on an array of bytes. */
  lemma PipelineIsBytewise(ws: seq<Word>, o: D.Outcome, es: seq<P.Event>, accesses: seq<Access>)
    requires AllFit(accesses, 4 * |ws|) && P.SubmittedBy(es) == TasksOf(accesses)
    ensures P.Wired(P.Idle(ws, o))
    ensures var s := P.Run(EXEC, P.Idle(ws, o), es);
            s.d.pending == [] && s.d.ongoing == [] ==> Seen(s.m, s.d.outcome) == DoAll(Seen(ws, o), accesses, |accesses|)
  {
    P.PipelineIsSerial(EXEC, ws, o, es);
    SerialIsBytewise(ws, o, accesses, |accesses|);
  }

  /** What a helper asks of the bus: its own address, and a transfer of its own width. */
  lemma RequestSpansAccess(a: Access)
    requires D.Aligned(a)
    ensures var req := D.Issue(D.TaskOf(a));
            req.addr == a.addr && 0 <= req.size <= 7 && A.PowerOfTwo(req.size) == a.width
    ensures D.Issue(D.TaskOf(a)).Store? <==> a.StoreAccess?
  {
    StrobeOfWidth(a.width, a.addr);
    A.BytesIsPower(D.SizeCode(a.width));
  }

  // ----- What was stored is read -----

  /** No store among accesses i.. of the first n touches the bytes at addr. */
  predicate Untouched(accesses: seq<Access>, i: nat, n: nat, addr: int, width: int)
    requires n <= |accesses|
  {
    forall k :: i <= k < n && accesses[k].StoreAccess? ==>
      accesses[k].addr + accesses[k].width <= addr || addr + width <= accesses[k].addr
  }

  lemma {:induction false} StoredBytesStay(p: Plain, accesses: seq<Access>, i: nat, n: nat)
    requires i < n <= |accesses| && AllFit(accesses, |p.bytes|) && FourBytes(p.vars)
    requires accesses[i].StoreAccess? && Untouched(accesses, i + 1, n, accesses[i].addr, accesses[i].width)
    ensures var a := accesses[i];
            DoAll(p, accesses, n).bytes[a.addr..a.addr + a.width] == B.LowBytes(a.data, a.width)
  {
    var a := accesses[i];
    if n > i + 1 {
      StoredBytesStay(p, accesses, i, n - 1);
      KeepsBytes(DoAll(p, accesses, n - 1), accesses[n - 1], a.addr, a.width);
    } else {
      Overwritten(DoAll(p, accesses, i).bytes, a.addr, B.LowBytes(a.data, a.width));
    }
  }

  lemma Overwritten(bs: seq<Word>, addr: int, new': seq<Word>)
    requires 0 <= addr && addr + |new'| <= |bs|
    ensures B.Overwrite(bs, addr, new')[addr..addr + |new'|] == new'
  {
  }

  lemma KeepsBytes(p: Plain, a: Access, addr: int, width: int)
    requires Fits(a, |p.bytes|) && FourBytes(p.vars) && 0 <= addr && 0 <= width && addr + width <= |p.bytes|
    requires a.StoreAccess? ==> a.addr + a.width <= addr || addr + width <= a.addr
    ensures Do(p, a).bytes[addr..addr + width] == p.bytes[addr..addr + width]
  {
  }

  /** A load or an expectation after a store to the same bytes sees what was stored, unless they were stored to
      again in between. */
  lemma StoreIsSeen(p: Plain, accesses: seq<Access>, i: nat, j: nat)
    requires i < j < |accesses| && AllFit(accesses, |p.bytes|) && FourBytes(p.vars)
    requires accesses[i].StoreAccess? && !accesses[j].StoreAccess?
    requires accesses[j].addr == accesses[i].addr && accesses[j].width == accesses[i].width
    requires Untouched(accesses, i + 1, j, accesses[i].addr, accesses[i].width)
    ensures var a, b, before, after := accesses[i], accesses[j], DoAll(p, accesses, j), DoAll(p, accesses, j + 1);
            && (b.LoadAccess? && b.dest >= 0 ==>
                 after.vars == before.vars[b.dest := B.LowBytes(a.data, a.width) + Held(before.vars, b.dest)[a.width..]])
            && (b.ExpectAccess? ==>
                 (after.met <==> before.met && B.LowBytes(b.data, b.width) == B.LowBytes(a.data, a.width)))
  {
    StoredBytesStay(p, accesses, i, j);
  }
}
