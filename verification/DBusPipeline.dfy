/** The pipelined DBus driver (DBusPipelineGen in bus.h). Tasks wait in `pending` until the bus accepts them and
    in `ongoing` until it answers; the slave accepts and answers whenever it likes, but in order. */
module DBusPipeline {
  import opened CBus
  import opened Common
  import opened LoadOps

  /** A load into variable dest, an expectation (dest is -1 and strobe 0), or a store. */
  datatype Task = Task(addr: int, size: int, data: Word, strobe: Strobe, dest: int, op: LoadOp)

  function LoadTask(addr: int, size: int, dest: int, op: LoadOp): Task {
    Task(addr, size, 0, 0, dest, if dest < 0 then DISCARD else op)
  }

  function StoreTask(addr: int, size: int, strobe: Strobe, data: Word): Task {
    Task(addr, size, data, strobe, -1, SIZE4_SHT0)
  }

  function ExpectTask(addr: int, size: int, data: Word, op: LoadOp): Task {
    Task(addr, size, data, 0, -1, op)
  }

  predicate IsLoad(t: Task) {
    t.strobe == 0
  }

  /** What the helpers loadw, loadh, loadb, storew and so on are asked for; dest is -1 for a null pointer. */
  datatype Access =
    | LoadAccess(width: int, addr: int, dest: int)
    | StoreAccess(width: int, addr: int, data: Word)
    | ExpectAccess(width: int, addr: int, data: Word)

  /** The width is that of a helper, and the address passes its assertion. */
  predicate Aligned(a: Access) {
    IsWidth(a.width) && a.addr % a.width == 0
  }

  /** MSIZE1, MSIZE2 and MSIZE4. */
  function SizeCode(width: int): int {
    if width == 4 then 2 else if width == 2 then 1 else 0
  }

  /** The task that a helper submits. */
  function TaskOf(a: Access): Task
    requires Aligned(a)
  {
    var op := Parse(a.width, a.addr);
    match a
    case LoadAccess(width, addr, dest) => LoadTask(addr, SizeCode(width), dest, op)
    case StoreAccess(width, addr, data) => StoreTask(addr, SizeCode(width), StrobeOf(op), Place(op, data))
    case ExpectAccess(width, addr, data) => ExpectTask(addr, SizeCode(width), Place(op, data), op)
  }

  /** What a task puts on the bus. */
  datatype Request = Load(addr: int, size: int) | Store(addr: int, size: int, strobe: Strobe, data: Word)

  datatype Wires = Clear | Valid(req: Request)

  function Issue(t: Task): Request {
    if IsLoad(t) then Load(t.addr, t.size) else Store(t.addr, t.size, t.strobe, t.data)
  }

  /** The variables that loads write, and whether every expectation so far was met. */
  datatype Outcome = Outcome(vars: map<int, Word>, met: bool)

  /** The bits that the expectation looks at agree. */
  predicate Matches(t: Task, data: Word) {
    SameUnder(t.data, data, MaskOf(t.op))
  }

  /** What retiring task t with the answer data does. */
  function Retire(o: Outcome, t: Task, data: Word): Outcome {
    if t.dest >= 0 then
      var cell := if t.dest in o.vars then o.vars[t.dest] else 0;
      o.(vars := o.vars[t.dest := Stored(t.op, data, cell)])
    else if IsLoad(t) then o.(met := o.met && Matches(t, data))
    else o
  }

  datatype Driver = Driver(pending: seq<Task>, ongoing: seq<Task>, wires: Wires, outcome: Outcome)

  /** The bus carries the first pending task, or nothing. */
  ghost predicate Driving(d: Driver) {
    d.wires == if d.pending == [] then Clear else Valid(Issue(d.pending[0]))
  }

  function Submit(d: Driver, t: Task): Driver {
    d.(pending := d.pending + [t], wires := if d.wires.Clear? then Valid(Issue(t)) else d.wires)
  }

  function Accept(d: Driver, addrOk: bool): Driver
    requires addrOk && d.wires.Valid? ==> d.pending != []
  {
    if addrOk && d.wires.Valid? then d.(ongoing := d.ongoing + [d.pending[0]], pending := d.pending[1..]) else d
  }

  function Answer(d: Driver, dataOk: bool, data: Word): Driver
    requires dataOk ==> d.ongoing != []
  {
    if dataOk then d.(ongoing := d.ongoing[1..], outcome := Retire(d.outcome, d.ongoing[0], data)) else d
  }

  function Reissue(d: Driver): Driver {
    d.(wires := if d.pending == [] then Clear else Valid(Issue(d.pending[0])))
  }

  /** One tick, on the signals that were on the bus before it. */
  function Tick(d: Driver, addrOk: bool, dataOk: bool, data: Word): Driver
    requires addrOk && d.wires.Valid? ==> d.pending != []
    requires dataOk ==> Accept(d, addrOk).ongoing != []
  {
    Reissue(Answer(Accept(d, addrOk), dataOk, data))
  }

  /** What the bus shows before a tick. */
  datatype Signals = Signals(addrOk: bool, dataOk: bool, data: Word)

  predicate Empty(d: Driver) {
    d.pending == [] && d.ongoing == []
  }

  /** Data only comes for a task that is ongoing, or accepted in the same tick. */
  predicate Answerable(d: Driver, s: Signals) {
    s.dataOk ==> d.ongoing != [] || (s.addrOk && d.pending != [])
  }

  /** fence(): ticks until both queues are empty, or the bus signals in ss are used up. */
  function Fenced(d: Driver, ss: seq<Signals>): Driver
    requires Driving(d) && Legal(d, ss)
    decreases |ss|
  {
    if ss == [] || Empty(d) then d else Fenced(Tick(d, ss[0].addrOk, ss[0].dataOk, ss[0].data), ss[1..])
  }

  ghost predicate Legal(d: Driver, ss: seq<Signals>)
    requires Driving(d)
    decreases |ss|
  {
    ss == [] || Empty(d)
    || (Answerable(d, ss[0]) && Legal(Tick(d, ss[0].addrOk, ss[0].dataOk, ss[0].data), ss[1..]))
  }

  /** The driver object of the source, updated in place. */
  class Pipeline {
    var pending: seq<Task>
    var ongoing: seq<Task>
    var wires: Wires
    var vars: map<int, Word>
    var met: bool

    ghost predicate Consistent()
      reads this
    {
      Driving(View())
    }

    function View(): Driver
      reads this
    {
      Driver(pending, ongoing, wires, Outcome(vars, met))
    }

    constructor (vars: map<int, Word>)
      ensures Consistent() && View() == Driver([], [], Clear, Outcome(vars, true))
    {
      pending, ongoing, wires := [], [], Clear;
      this.vars, met := vars, true;
    }

    method SubmitTask(t: Task)
      requires Consistent()
      modifies this
      ensures Consistent() && View() == Submit(old(View()), t)
    {
      pending := pending + [t];
      if wires.Clear? {
        wires := Valid(Issue(t));
      }
    }

    /** The helpers, by width. */
    method LoadAt(width: int, addr: int, dest: int)
      requires Consistent() && Aligned(LoadAccess(width, addr, dest))
      modifies this
      ensures Consistent() && View() == Submit(old(View()), TaskOf(LoadAccess(width, addr, dest)))
    {
      SubmitTask(LoadTask(addr, SizeCode(width), dest, Parse(width, addr)));
    }

    method StoreAt(width: int, addr: int, data: Word)
      requires Consistent() && Aligned(StoreAccess(width, addr, data))
      modifies this
      ensures Consistent() && View() == Submit(old(View()), TaskOf(StoreAccess(width, addr, data)))
    {
      var op := Parse(width, addr);
      SubmitTask(StoreTask(addr, SizeCode(width), StrobeOf(op), Place(op, data)));
    }

    method ExpectAt(width: int, addr: int, data: Word)
      requires Consistent() && Aligned(ExpectAccess(width, addr, data))
      modifies this
      ensures Consistent() && View() == Submit(old(View()), TaskOf(ExpectAccess(width, addr, data)))
    {
      var op := Parse(width, addr);
      SubmitTask(ExpectTask(addr, SizeCode(width), Place(op, data), op));
    }

    method TickOnce(addrOk: bool, dataOk: bool, data: Word)
      requires Consistent()
      requires dataOk ==> ongoing != [] || (addrOk && pending != [])
      modifies this
      ensures Consistent() && View() == Tick(old(View()), addrOk, dataOk, data)
    {
      var valid := wires.Valid?;
      if addrOk && valid {
        assert pending != [];
        ongoing := ongoing + [pending[0]];
        pending := pending[1..];
      }
      if dataOk {
        assert ongoing != [];
        var u := ongoing[0];
        ongoing := ongoing[1..];
        if u.dest >= 0 {
          var cell := ApplyTo(u.op, data, if u.dest in vars then vars[u.dest] else 0);
          vars := vars[u.dest := cell];
        } else if IsLoad(u) {
          if !Matches(u, data) {
            met := false;
          }
        }
      }
      if pending == [] {
        wires := Clear;
      } else {
        wires := Valid(Issue(pending[0]));
      }
    }

    method Fence(ss: seq<Signals>) returns (done: bool)
      requires Consistent() && Legal(View(), ss)
      modifies this
      ensures Consistent() && View() == Fenced(old(View()), ss) && (done <==> Empty(View()))
    {
      var count := 0;
      while !(pending == [] && ongoing == []) && count < |ss|
        invariant 0 <= count <= |ss| && Consistent() && Legal(View(), ss[count..])
        invariant Fenced(View(), ss[count..]) == Fenced(old(View()), ss)
      {
        assert ss[count..][0] == ss[count] && ss[count..][1..] == ss[count + 1..];
        TickOnce(ss[count].addrOk, ss[count].dataOk, ss[count].data);
        count := count + 1;
      }
      done := pending == [] && ongoing == [];
    }
  }
}

/** The driver against an in-order slave, and one-at-a-time execution. */
module PipelineTheorems {
  import opened CBus
  import opened Common
  import opened DBusPipeline

  /** How the slave's memory answers a request. */
  type Exec<!M> = (M, Request) -> (M, Word)

  // ----- The specification: one task at a time -----

  /** The first n tasks executed one after the other: the memory they leave and the answers they get. A task
      without strobe bits reads at its address, any other writes its data there under its strobe. */
  function Serial<M>(exec: Exec<M>, m: M, tasks: seq<Task>, n: nat): (r: (M, seq<Word>))
    requires n <= |tasks|
    ensures |r.1| == n
  {
    if n == 0 then (m, [])
    else
      var (m', ws) := Serial(exec, m, tasks, n - 1);
      var t := tasks[n - 1];
      var (m'', w) := exec(m', if t.strobe == 0 then Load(t.addr, t.size) else Store(t.addr, t.size, t.strobe, t.data));
      (m'', ws + [w])
  }

  /** The first n tasks retired with their answers. */
  function RetireAll(o: Outcome, tasks: seq<Task>, ws: seq<Word>, n: nat): Outcome
    requires n <= |tasks| && n <= |ws|
  {
    if n == 0 then o else Retire(RetireAll(o, tasks, ws, n - 1), tasks[n - 1], ws[n - 1])
  }

  /** Later tasks and answers do not matter. */
  lemma {:induction false} SerialOfPrefix<M>(exec: Exec<M>, m: M, tasks: seq<Task>, more: seq<Task>, n: nat)
    requires n <= |tasks|
    ensures Serial(exec, m, tasks + more, n) == Serial(exec, m, tasks, n)
  {
    if n > 0 {
      SerialOfPrefix(exec, m, tasks, more, n - 1);
    }
  }

  lemma {:induction false} RetireOfPrefix(o: Outcome, tasks: seq<Task>, ts: seq<Task>, ws: seq<Word>, vs: seq<Word>, n: nat)
    requires n <= |tasks| && n <= |ws|
    ensures RetireAll(o, tasks + ts, ws + vs, n) == RetireAll(o, tasks, ws, n)
  {
    if n > 0 {
      RetireOfPrefix(o, tasks, ts, ws, vs, n - 1);
    }
  }

  // ----- Driver and slave -----

  /** The slave executes requests as it accepts them and owes their answers in order. `submitted` is every task
      submitted so far, `retired` how many of them are done. */
  datatype Sys<M> = Sys(d: Driver, m: M, owed: seq<Word>, submitted: seq<Task>, retired: nat)

  /** What happens next: a submission, or a tick in which the slave may accept, may answer if it owes an answer
      after that, and puts `noise` on the data wires otherwise. */
  datatype Event = SubmitEvent(t: Task) | TickEvent(accept: bool, answer: bool, noise: Word)

  function Slave<M>(exec: Exec<M>, s: Sys<M>, accept: bool): (M, seq<Word>) {
    if accept && s.d.wires.Valid? then
      var (m', w) := exec(s.m, s.d.wires.req);
      (m', s.owed + [w])
    else (s.m, s.owed)
  }

  function Step<M>(exec: Exec<M>, s: Sys<M>, e: Event): Sys<M>
    requires Driving(s.d) && |s.owed| == |s.d.ongoing|
  {
    match e
    case SubmitEvent(t) => s.(d := Submit(s.d, t), submitted := s.submitted + [t])
    case TickEvent(accept, answer, noise) =>
      var (m', owed) := Slave(exec, s, accept);
      var dataOk := answer && owed != [];
      Sys(Tick(s.d, accept, dataOk, if dataOk then owed[0] else noise),
          m', if dataOk then owed[1..] else owed, s.submitted, if dataOk then s.retired + 1 else s.retired)
  }

  /** The system after the tasks submitted so far, as one-at-a-time execution from m and o would have it: the
      memory is that of all accepted tasks, the outcome that of all retired ones, and the answers still owed
      are the serial ones. */
  ghost predicate InOrder<M>(exec: Exec<M>, m: M, o: Outcome, s: Sys<M>) {
    var accepted := s.retired + |s.d.ongoing|;
    && Driving(s.d) && accepted <= |s.submitted|
    && QueuesAt(s, s.retired, accepted) && EffectsAt(exec, m, o, s, s.retired, accepted)
  }

  /** r tasks are retired and n accepted: the queues hold the others in order; */
  ghost predicate QueuesAt<M>(s: Sys<M>, r: nat, n: nat)
    requires r <= n <= |s.submitted|
  {
    s.d.ongoing == s.submitted[r..n] && s.d.pending == s.submitted[n..]
  }

  /** and the effects are those of one-at-a-time execution. */
  ghost predicate EffectsAt<M>(exec: Exec<M>, m: M, o: Outcome, s: Sys<M>, r: nat, n: nat)
    requires r <= n <= |s.submitted|
  {
    var (m', ws) := Serial(exec, m, s.submitted, n);
    s.m == m' && s.owed == ws[r..] && s.d.outcome == RetireAll(o, s.submitted, ws, r)
  }

  lemma SubmitKeepsSerial<M>(exec: Exec<M>, m: M, o: Outcome, tasks: seq<Task>, t: Task, r: nat, n: nat)
    requires r <= n <= |tasks|
    ensures Serial(exec, m, tasks + [t], n) == Serial(exec, m, tasks, n)
    ensures var ws := Serial(exec, m, tasks, n).1; RetireAll(o, tasks + [t], ws, r) == RetireAll(o, tasks, ws, r)
  {
    var ws := Serial(exec, m, tasks, n).1;
    SerialOfPrefix(exec, m, tasks, [t], n);
    RetireOfPrefix(o, tasks, [t], ws, [], r);
    assert ws + [] == ws;
  }

  lemma SlicesStay(tasks: seq<Task>, t: Task, r: nat, n: nat)
    requires r <= n <= |tasks|
    ensures (tasks + [t])[r..n] == tasks[r..n] && (tasks + [t])[n..] == tasks[n..] + [t]
  {
  }

  /** s' is s with a task put at the end of the pending ones. */
  ghost predicate Queued<M>(s: Sys<M>, t: Task, s': Sys<M>) {
    && Driving(s'.d)
    && s' == s.(d := s'.d, submitted := s.submitted + [t])
    && s'.d == s.d.(pending := s.d.pending + [t], wires := s'.d.wires)
  }

  lemma SubmitQueues<M>(exec: Exec<M>, s: Sys<M>, t: Task)
    requires Driving(s.d) && |s.owed| == |s.d.ongoing|
    ensures Queued(s, t, Step(exec, s, SubmitEvent(t)))
  {
  }

  lemma QueuingKeepsOrder<M>(exec: Exec<M>, m: M, o: Outcome, s: Sys<M>, t: Task, s': Sys<M>)
    requires InOrder(exec, m, o, s) && Queued(s, t, s')
    ensures InOrder(exec, m, o, s')
  {
    var r, n := s.retired, s.retired + |s.d.ongoing|;
    QueuingKeepsQueues(s, t, s', r, n);
    QueuingKeepsEffects(exec, m, o, s, t, s', r, n);
    assert s'.retired == r && |s'.d.ongoing| == n - r;
  }

  lemma QueuingKeepsQueues<M>(s: Sys<M>, t: Task, s': Sys<M>, r: nat, n: nat)
    requires r <= n <= |s.submitted| && QueuesAt(s, r, n) && s'.submitted == s.submitted + [t]
    requires s'.d.ongoing == s.d.ongoing && s'.d.pending == s.d.pending + [t]
    ensures QueuesAt(s', r, n)
  {
    SlicesStay(s.submitted, t, r, n);
  }

  lemma QueuingKeepsEffects<M>(exec: Exec<M>, m: M, o: Outcome, s: Sys<M>, t: Task, s': Sys<M>, r: nat, n: nat)
    requires r <= n <= |s.submitted| && EffectsAt(exec, m, o, s, r, n)
    requires s'.submitted == s.submitted + [t] && s'.m == s.m && s'.owed == s.owed && s'.d.outcome == s.d.outcome
    ensures EffectsAt(exec, m, o, s', r, n)
  {
    SubmitKeepsSerial(exec, m, o, s.submitted, t, r, n);
  }

  lemma SubmitKeepsOrder<M>(exec: Exec<M>, m: M, o: Outcome, s: Sys<M>, t: Task)
    requires InOrder(exec, m, o, s)
    ensures |s.owed| == |s.d.ongoing|
    ensures InOrder(exec, m, o, Step(exec, s, SubmitEvent(t)))
  {
    SubmitQueues(exec, s, t);
    QueuingKeepsOrder(exec, m, o, s, t, Step(exec, s, SubmitEvent(t)));
  }

  /** The first half of a tick: the slave accepts the task on the bus. */
  function Accepted<M>(exec: Exec<M>, s: Sys<M>, accept: bool): Sys<M>
    requires Driving(s.d)
  {
    var (m', owed) := Slave(exec, s, accept);
    s.(d := Reissue(Accept(s.d, accept)), m := m', owed := owed)
  }

  /** The second half: the slave answers the oldest ongoing task. */
  function Answered<M>(s: Sys<M>, answer: bool): Sys<M>
    requires |s.owed| == |s.d.ongoing|
  {
    if answer && s.owed != [] then
      s.(d := Answer(s.d, true, s.owed[0]), owed := s.owed[1..], retired := s.retired + 1)
    else s
  }

  lemma TickInHalves<M>(exec: Exec<M>, s: Sys<M>, e: Event)
    requires e.TickEvent? && Driving(s.d) && |s.owed| == |s.d.ongoing|
    ensures |Accepted(exec, s, e.accept).owed| == |Accepted(exec, s, e.accept).d.ongoing|
    ensures Step(exec, s, e) == Answered(Accepted(exec, s, e.accept), e.answer)
  {
  }

  /** The queues: the first pending task becomes the last ongoing one. */
  lemma QueueMoves(tasks: seq<Task>, r: nat, n: nat, ongoing: seq<Task>, pending: seq<Task>)
    requires r <= n <= |tasks| && ongoing == tasks[r..n] && pending == tasks[n..] && pending != []
    ensures n < |tasks| && pending[0] == tasks[n]
    ensures ongoing + [pending[0]] == tasks[r..n + 1] && pending[1..] == tasks[n + 1..]
  {
  }

  /** The memory: one more task is executed, and its answer is owed. */
  lemma SerialGrows<M>(exec: Exec<M>, m: M, o: Outcome, tasks: seq<Task>, r: nat, n: nat)
    requires r <= n < |tasks|
    ensures var (m0, ws) := Serial(exec, m, tasks, n); var (m1, w) := exec(m0, Issue(tasks[n]));
            var (m', ws') := Serial(exec, m, tasks, n + 1);
            m' == m1 && ws'[r..] == ws[r..] + [w] && RetireAll(o, tasks, ws', r) == RetireAll(o, tasks, ws, r)
  {
    var (m0, ws) := Serial(exec, m, tasks, n);
    RetireOfPrefix(o, tasks, [], ws, [exec(m0, Issue(tasks[n])).1], r);
    assert tasks + [] == tasks;
  }

  /** s' is s with the first pending task executed and its answer owed. */
  ghost predicate TookOne<M>(exec: Exec<M>, s: Sys<M>, s': Sys<M>) {
    && s.d.pending != [] && Driving(s'.d)
    && (var (m', w) := exec(s.m, Issue(s.d.pending[0]));
        && s' == s.(d := s'.d, m := m', owed := s.owed + [w])
        && s'.d == s.d.(ongoing := s.d.ongoing + [s.d.pending[0]], pending := s.d.pending[1..], wires := s'.d.wires))
  }

  lemma AcceptTakesOne<M>(exec: Exec<M>, s: Sys<M>)
    requires Driving(s.d) && s.d.pending != []
    ensures TookOne(exec, s, Accepted(exec, s, true))
  {
  }

  lemma TakingKeepsOrder<M>(exec: Exec<M>, m: M, o: Outcome, s: Sys<M>, s': Sys<M>)
    requires InOrder(exec, m, o, s) && TookOne(exec, s, s')
    ensures InOrder(exec, m, o, s')
  {
    var r, n := s.retired, s.retired + |s.d.ongoing|;
    QueueMoves(s.submitted, r, n, s.d.ongoing, s.d.pending);
    assert s'.retired == r && |s'.d.ongoing| == n + 1 - r;
    TakingKeepsEffects(exec, m, o, s, s', r, n);
  }

  lemma TakingKeepsEffects<M>(exec: Exec<M>, m: M, o: Outcome, s: Sys<M>, s': Sys<M>, r: nat, n: nat)
    requires r <= n < |s.submitted| && EffectsAt(exec, m, o, s, r, n)
    requires s'.submitted == s.submitted && s'.d.outcome == s.d.outcome
    requires var (m', w) := exec(s.m, Issue(s.submitted[n])); s'.m == m' && s'.owed == s.owed + [w]
    ensures EffectsAt(exec, m, o, s', r, n + 1)
  {
    SerialGrows(exec, m, o, s.submitted, r, n);
  }

  lemma AcceptKeepsOrder<M>(exec: Exec<M>, m: M, o: Outcome, s: Sys<M>, accept: bool)
    requires InOrder(exec, m, o, s)
    ensures InOrder(exec, m, o, Accepted(exec, s, accept))
  {
    if accept && s.d.pending != [] {
      AcceptTakesOne(exec, s);
      TakingKeepsOrder(exec, m, o, s, Accepted(exec, s, accept));
    }
  }

  lemma AnswerKeepsOrder<M>(exec: Exec<M>, m: M, o: Outcome, s: Sys<M>, answer: bool)
    requires InOrder(exec, m, o, s)
    ensures InOrder(exec, m, o, Answered(s, answer))
  {
    if answer && s.owed != [] {
      var n, r := s.retired + |s.d.ongoing|, s.retired;
      var (_, ws) := Serial(exec, m, s.submitted, n);
      RestOf(s.submitted, r, n);
      RestOf(ws, r, |ws|);
      assert ws[r..|ws|] == ws[r..];
    }
  }

  lemma RestOf<T>(s: seq<T>, i: nat, n: nat)
    requires i < n <= |s|
    ensures s[i..n][0] == s[i] && s[i..n][1..] == s[i + 1..n]
  {
  }

  lemma StepKeepsOrder<M>(exec: Exec<M>, m: M, o: Outcome, s: Sys<M>, e: Event)
    requires InOrder(exec, m, o, s)
    ensures |s.owed| == |s.d.ongoing|
    ensures InOrder(exec, m, o, Step(exec, s, e))
  {
    match e
    case SubmitEvent(t) => SubmitKeepsOrder(exec, m, o, s, t);
    case TickEvent(accept, answer, noise) =>
      TickInHalves(exec, s, e);
      AcceptKeepsOrder(exec, m, o, s, accept);
      AnswerKeepsOrder(exec, m, o, Accepted(exec, s, accept), answer);
  }

  // ----- Runs -----

  /** The bus carries the first pending task, and the slave owes one answer for each ongoing one. */
  ghost predicate Wired<M>(s: Sys<M>) {
    Driving(s.d) && |s.owed| == |s.d.ongoing|
  }

  lemma StepStaysWired<M>(exec: Exec<M>, s: Sys<M>, e: Event)
    requires Wired(s)
    ensures Wired(Step(exec, s, e))
  {
  }

  ghost function Run<M>(exec: Exec<M>, s: Sys<M>, es: seq<Event>): Sys<M>
    requires Wired(s)
    decreases |es|
  {
    if es == [] then s
    else
      StepStaysWired(exec, s, es[0]);
      Run(exec, Step(exec, s, es[0]), es[1..])
  }

  function Idle<M>(m: M, o: Outcome): Sys<M> {
    Sys(Driver([], [], Clear, o), m, [], [], 0)
  }

  /** In every run, whenever the slave accepts and answers: retired, ongoing and pending tasks are the submitted
      ones in order, the bus carries the first pending task, and memory, variables and expectations are those of
      one-at-a-time execution. */
  lemma {:induction false} RunsAreInOrder<M>(exec: Exec<M>, m: M, o: Outcome, s: Sys<M>, es: seq<Event>)
    requires InOrder(exec, m, o, s)
    ensures Wired(s) && InOrder(exec, m, o, Run(exec, s, es))
    decreases |es|
  {
    if es != [] {
      StepKeepsOrder(exec, m, o, s, es[0]);
      StepStaysWired(exec, s, es[0]);
      RunsAreInOrder(exec, m, o, Step(exec, s, es[0]), es[1..]);
    }
  }

  lemma IdleIsInOrder<M>(exec: Exec<M>, m: M, o: Outcome)
    ensures InOrder(exec, m, o, Idle(m, o))
  {
  }

  /** The tasks that the events es submit. */
  function SubmittedBy(es: seq<Event>): seq<Task> {
    if es == [] then [] else FirstSubmitted(es[0]) + SubmittedBy(es[1..])
  }

  function FirstSubmitted(e: Event): seq<Task> {
    if e.SubmitEvent? then [e.t] else []
  }

  lemma {:induction false} RunSubmits<M>(exec: Exec<M>, s: Sys<M>, es: seq<Event>)
    requires Wired(s)
    ensures Run(exec, s, es).submitted == s.submitted + SubmittedBy(es)
    decreases |es|
  {
    if es == [] {
      assert s.submitted + [] == s.submitted;
    } else {
      StepStaysWired(exec, s, es[0]);
      StepSubmits(exec, s, es[0]);
      RunSubmits(exec, Step(exec, s, es[0]), es[1..]);
      Regroup(s.submitted, FirstSubmitted(es[0]), SubmittedBy(es[1..]));
    }
  }

  lemma StepSubmits<M>(exec: Exec<M>, s: Sys<M>, e: Event)
    requires Wired(s)
    ensures Step(exec, s, e).submitted == s.submitted + FirstSubmitted(e)
  {
    assert s.submitted + [] == s.submitted;
  }

  lemma Regroup<T>(a: seq<T>, b: seq<T>, c: seq<T>)
    ensures (a + b) + c == a + (b + c)
  {
  }

  /** When a run has emptied both queues, the memory, the variables loaded and the expectations met are exactly
      those of executing the submitted tasks one at a time. */
  lemma PipelineIsSerial<M>(exec: Exec<M>, m: M, o: Outcome, es: seq<Event>)
    ensures InOrder(exec, m, o, Idle(m, o))
    ensures var s := Run(exec, Idle(m, o), es);
            s.d.pending == [] && s.d.ongoing == [] ==>
              var tasks := SubmittedBy(es);
              var (m', ws) := Serial(exec, m, tasks, |tasks|);
              s.m == m' && s.d.outcome == RetireAll(o, tasks, ws, |tasks|)
  {
    IdleIsInOrder(exec, m, o);
    RunSubmits(exec, Idle(m, o), es);
    RunsAreInOrder(exec, m, o, Idle(m, o), es);
    var s := Run(exec, Idle(m, o), es);
    assert s.submitted == SubmittedBy(es);
    if s.d.pending == [] && s.d.ongoing == [] {
      EmptyIsDone(exec, m, o, s);
    }
  }

  lemma EmptyIsDone<M>(exec: Exec<M>, m: M, o: Outcome, s: Sys<M>)
    requires InOrder(exec, m, o, s) && s.d.pending == [] && s.d.ongoing == []
    ensures var n := |s.submitted|; var (m', ws) := Serial(exec, m, s.submitted, n);
            s.m == m' && s.d.outcome == RetireAll(o, s.submitted, ws, n)
  {
  }

  // ----- fence() -----

  /** Handshakes still to come: two for a pending task, one for an ongoing one. */
  function Handshakes(d: Driver): nat {
    2 * |d.pending| + |d.ongoing|
  }

  /** A tick does exactly the handshakes that happen in it, so fence() ends as soon as enough have happened,
      and no tick can do more than empty both queues. */
  lemma TickProgress<M>(exec: Exec<M>, s: Sys<M>, e: Event)
    requires Wired(s) && e.TickEvent?
    ensures var s' := Step(exec, s, e);
            var accepts := e.accept && s.d.pending != [];
            var answers := e.answer && (s.d.ongoing != [] || accepts);
            && |s'.d.pending| == |s.d.pending| - (if accepts then 1 else 0)
            && |s'.d.ongoing| == |s.d.ongoing| + (if accepts then 1 else 0) - (if answers then 1 else 0)
            && Handshakes(s'.d) == Handshakes(s.d) - (if accepts then 1 else 0) - (if answers then 1 else 0)
  {
  }

  /** The tasks that are not retired yet, oldest first. */
  function Queue(d: Driver): seq<Task> {
    d.ongoing + d.pending
  }

  /** Data words that the answers of ss carry, as long as the fence lasts. */
  function Answers(d: Driver, ss: seq<Signals>): seq<Word>
    requires Driving(d) && Legal(d, ss)
    decreases |ss|
  {
    if ss == [] || Empty(d) then []
    else
      (if ss[0].dataOk then [ss[0].data] else [])
      + Answers(Tick(d, ss[0].addrOk, ss[0].dataOk, ss[0].data), ss[1..])
  }

  /** Retiring tasks from the front of the queue with the answers ws. */
  function RetireFront(o: Outcome, tasks: seq<Task>, ws: seq<Word>): Outcome
    requires |ws| <= |tasks|
    decreases |ws|
  {
    if ws == [] then o else RetireFront(Retire(o, tasks[0], ws[0]), tasks[1..], ws[1..])
  }

  lemma TickQueue(d: Driver, s: Signals)
    requires Driving(d) && Answerable(d, s)
    ensures var d' := Tick(d, s.addrOk, s.dataOk, s.data);
            && Driving(d')
            && (s.dataOk ==> Queue(d) != [])
            && Queue(d') == (if s.dataOk then Queue(d)[1..] else Queue(d))
            && d'.outcome == (if s.dataOk then Retire(d.outcome, Queue(d)[0], s.data) else d.outcome)
  {
    var a := Accept(d, s.addrOk);
    assert a.ongoing + a.pending == Queue(d);
  }

  /** fence() retires tasks from the front of the queue, oldest first, one for each answer; it is done exactly
      when there has been an answer for every one. */
  lemma {:induction false} FenceRetires(d: Driver, ss: seq<Signals>)
    requires Driving(d) && Legal(d, ss)
    ensures var d', ws := Fenced(d, ss), Answers(d, ss);
            && |ws| <= |Queue(d)| && Queue(d') == Queue(d)[|ws|..]
            && d'.outcome == RetireFront(d.outcome, Queue(d), ws)
            && (Empty(d') <==> |ws| == |Queue(d)|)
    decreases |ss|
  {
    if ss != [] && !Empty(d) {
      TickQueue(d, ss[0]);
      var d1 := Tick(d, ss[0].addrOk, ss[0].dataOk, ss[0].data);
      FenceRetires(d1, ss[1..]);
      var ws1 := Answers(d1, ss[1..]);
      AnswersUnfold(d, ss, d1, ws1);
      if ss[0].dataOk {
        OneAnswer(d.outcome, Queue(d), ss[0].data, ws1);
      }
    }
  }

  lemma AnswersUnfold(d: Driver, ss: seq<Signals>, d1: Driver, ws1: seq<Word>)
    requires Driving(d) && Legal(d, ss) && ss != [] && !Empty(d)
    requires d1 == Tick(d, ss[0].addrOk, ss[0].dataOk, ss[0].data) && Driving(d1) && ws1 == Answers(d1, ss[1..])
    ensures Fenced(d, ss) == Fenced(d1, ss[1..])
    ensures Answers(d, ss) == if ss[0].dataOk then [ss[0].data] + ws1 else ws1
  {
    assert [] + ws1 == ws1;
  }

  lemma OneAnswer(o: Outcome, q: seq<Task>, w: Word, ws: seq<Word>)
    requires |ws| < |q|
    ensures RetireFront(o, q, [w] + ws) == RetireFront(Retire(o, q[0], w), q[1..], ws)
    ensures q[1..][|ws|..] == q[|[w] + ws|..]
  {
    assert ([w] + ws)[1..] == ws;
  }

  function Ticks(n: nat): seq<Event> {
    if n == 0 then [] else [TickEvent(true, true, 0)] + Ticks(n - 1)
  }

  /** Against a slave that accepts and answers in every cycle, fence() needs one tick per unfinished task. */
  lemma {:induction false} EagerSlaveDrains<M>(exec: Exec<M>, s: Sys<M>)
    requires Wired(s)
    ensures var s' := Run(exec, s, Ticks(|s.d.pending| + |s.d.ongoing|));
            s'.d.pending == [] && s'.d.ongoing == []
    decreases |s.d.pending| + |s.d.ongoing|
  {
    if |s.d.pending| + |s.d.ongoing| > 0 {
      var e := TickEvent(true, true, 0);
      var s1 := Step(exec, s, e);
      TickProgress(exec, s, e);
      StepStaysWired(exec, s, e);
      EagerSlaveDrains(exec, s1);
      var es := Ticks(|s.d.pending| + |s.d.ongoing|);
      assert es[0] == e && es[1..] == Ticks(|s1.d.pending| + |s1.d.ongoing|);
    }
  }
}
