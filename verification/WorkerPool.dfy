/** The parallel test runner (run_parallel and run_worker in testbench.cpp): a master hands test numbers to
    worker processes over pipes. Every interleaving of the processes is a sequence of events. */
module WorkerPool {
  import opened Common

  // ----- The master -----

  datatype Master = Master(
    total: int, dispatched: int, exited: int, passed: int, failed: bool, first: seq<bool>, open: seq<bool>)

  function Started(n: nat, total: nat): Master {
    Master(total, 0, 0, 0, false, seq(n, _ => true), seq(n, _ => true))
  }

  /** The loop goes on. */
  predicate Listening(m: Master) {
    !m.failed && m.exited < |m.open|
  }

  /** A byte was read from worker j: the new state, and the number written back to it. */
  function HandleByte(m: Master, j: nat): (Master, int)
    requires j < |m.first| && j < |m.open|
  {
    var m1 := if m.first[j] then m.(first := m.first[j := false]) else m.(passed := m.passed + 1);
    if m1.dispatched < m1.total then (m1.(dispatched := m1.dispatched + 1), m1.dispatched)
    else (m1.(open := m1.open[j := false], exited := m1.exited + 1), -1)
  }

  /** The bookkeeping of run_parallel, updated in place. */
  class Dispatcher {
    const total: nat
    var dispatched: int
    var exited: int
    var passed: int
    var failed: bool
    var first: seq<bool>
    var open: seq<bool>

    function View(): Master
      reads this
    {
      Master(total, dispatched, exited, passed, failed, first, open)
    }

    constructor (n: nat, total: nat)
      ensures View() == Started(n, total)
    {
      this.total := total;
      dispatched, exited, passed, failed := 0, 0, 0, false;
      first := seq(n, _ => true);
      open := seq(n, _ => true);
    }

    /** The loop body for worker j, whose pipe is ready: `eof` when the worker is gone and its pipe empty. */
    method HandleReady(j: nat, eof: bool) returns (reply: int)
      requires j < |first| && j < |open| && open[j]
      modifies this
      ensures if eof then View() == old(View()).(failed := true) && reply == -1
              else (View(), reply) == HandleByte(old(View()), j)
    {
      if eof {
        failed := true;
        return -1;
      }
      if first[j] {
        first := first[j := false];
      } else {
        passed := passed + 1;
      }
      if dispatched < total {
        reply := dispatched;
        dispatched := dispatched + 1;
      } else {
        reply := -1;
        open := open[j := false];
        exited := exited + 1;
      }
    }
  }

  // ----- Workers and pipes -----

  /** Where a worker is in its loop; a crash takes the test that ran with it. */
  datatype Phase = Asking | Waiting | Running(test: int) | Exited | Crashed(test: int)

  /** A worker, the bytes it has written that the master has not read, and the numbers written back to it. */
  datatype Worker = Worker(phase: Phase, asked: nat, replies: seq<int>)

  /** `sent[t]` is the worker that test t was sent to; `finished` lists the tests that ran to their end;
      `served` counts the requests the master has handled. */
  datatype Pool = Pool(master: Master, workers: seq<Worker>, sent: seq<int>, finished: seq<int>, served: nat)

  datatype Event = Ask(j: int) | Serve(j: int) | Receive(j: int) | Finish(j: int) | Crash(j: int) | Eof(j: int)

  predicate WellFormed(p: Pool) {
    |p.master.first| == |p.master.open| == |p.workers|
  }

  predicate Enabled(p: Pool, e: Event)
    requires WellFormed(p)
  {
    && 0 <= e.j < |p.workers|
    && var w := p.workers[e.j];
       match e
       case Ask(_) => w.phase == Asking
       case Serve(j) => Listening(p.master) && p.master.open[j] && w.asked > 0
       case Receive(_) => w.phase == Waiting && w.replies != []
       case Finish(_) => w.phase.Running?
       case Crash(_) => w.phase.Running?
       case Eof(j) => Listening(p.master) && p.master.open[j] && w.asked == 0 && w.phase.Crashed?
  }

  function Step(p: Pool, e: Event): Pool
    requires WellFormed(p) && Enabled(p, e)
  {
    var j := e.j;
    var w := p.workers[j];
    match e
    case Ask(_) => p.(workers := p.workers[j := w.(phase := Waiting, asked := w.asked + 1)])
    case Serve(_) =>
      var (m, reply) := HandleByte(p.master, j);
      p.(master := m, served := p.served + 1,
         sent := if reply >= 0 then p.sent + [j] else p.sent,
         workers := p.workers[j := w.(asked := w.asked - 1, replies := w.replies + [reply])])
    case Receive(_) =>
      var i := w.replies[0];
      p.(workers := p.workers[j := w.(replies := w.replies[1..], phase := if i < 0 then Exited else Running(i))])
    case Finish(_) =>
      p.(workers := p.workers[j := w.(phase := Asking)], finished := p.finished + [w.phase.test])
    case Crash(_) => p.(workers := p.workers[j := w.(phase := Crashed(w.phase.test))])
    case Eof(_) => p.(master := p.master.(failed := true))
  }

  function Begin(n: nat, total: nat): Pool {
    Pool(Started(n, total), seq(n, _ => Worker(Asking, 0, [])), [], [], 0)
  }

  // ----- Invariant -----

  function Count(s: seq<bool>): nat {
    if s == [] then 0 else (if s[0] then 1 else 0) + Count(s[1..])
  }

  lemma {:induction false} CountUpdate(s: seq<bool>, i: nat, b: bool)
    requires i < |s|
    ensures Count(s[i := b]) == Count(s) - (if s[i] then 1 else 0) + (if b then 1 else 0)
  {
    if i == 0 {
      assert s[0 := b][1..] == s[1..];
    } else {
      CountUpdate(s[1..], i - 1, b);
      assert s[i := b][1..] == s[1..][i - 1 := b];
    }
  }

  lemma {:induction false} CountFull(s: seq<bool>)
    ensures Count(s) <= |s|
    ensures Count(s) == 0 <==> forall i :: 0 <= i < |s| ==> !s[i]
    ensures Count(s) == |s| <==> forall i :: 0 <= i < |s| ==> s[i]
  {
    if s != [] {
      CountFull(s[1..]);
      assert forall i :: 0 < i < |s| ==> s[i] == s[1..][i - 1];
      assert (forall i :: 0 <= i < |s[1..]| ==> !s[1..][i]) ==> forall i :: 0 < i < |s| ==> !s[i];
      assert (forall i :: 0 <= i < |s[1..]| ==> s[1..][i]) ==> forall i :: 0 < i < |s| ==> s[i];
    }
  }

  /** Worker j owes the master the completion of a test: it was sent one that is not yet counted as passed. */
  predicate Holding(p: Pool, j: int)
    requires WellFormed(p) && 0 <= j < |p.workers|
  {
    !p.master.first[j] && p.master.open[j]
  }

  function HoldingAll(p: Pool): seq<bool>
    requires WellFormed(p)
  {
    seq(|p.workers|, j requires 0 <= j < |p.workers| => Holding(p, j))
  }

  /** The unfinished test that worker j has, or -1. */
  function TestOf(w: Worker): int {
    if w.phase.Running? || w.phase.Crashed? then w.phase.test
    else if w.replies != [] then w.replies[0]
    else -1
  }

  /** Phase, pipes and the master's flags for one worker fit together. */
  predicate Coherent(p: Pool, j: int)
    requires WellFormed(p) && 0 <= j < |p.workers|
  {
    var w, first, open := p.workers[j], p.master.first[j], p.master.open[j];
    match w.phase
    case Asking => w.asked == 0 && w.replies == [] && open
    case Waiting =>
      (w.asked == 1 && w.replies == [] && open)
      || (w.asked == 0 && |w.replies| == 1 && !first
          && (if w.replies[0] < 0 then w.replies[0] == -1 && !open else open))
    case Running(t) => w.asked == 0 && w.replies == [] && open && !first && t >= 0
    case Crashed(t) => w.asked == 0 && w.replies == [] && open && !first && t >= 0
    case Exited => w.asked == 0 && w.replies == [] && !open && !first
  }

  ghost predicate Consistent(p: Pool) {
    && WellFormed(p)
    && (forall j :: 0 <= j < |p.workers| ==> Coherent(p, j))
    && 0 <= p.master.dispatched <= p.master.total
    && (forall j :: 0 <= j < |p.workers| && !p.master.open[j] ==> p.master.dispatched == p.master.total)
    && p.master.exited == |p.workers| - Count(p.master.open)
    && p.served == p.master.dispatched + p.master.exited
    && p.master.dispatched == p.master.passed + Count(HoldingAll(p))
    && (p.master.failed ==> exists j :: 0 <= j < |p.workers| && p.workers[j].phase.Crashed?)
  }

  /** Every dispatched test is either finished, once, or with the one worker it was sent to. */
  ghost predicate Accounted(p: Pool) {
    WellFormed(p) && SentOnce(p) && FinishedOnce(p) && HeldByReceivers(p)
  }

  ghost predicate SentOnce(p: Pool) {
    && |p.sent| == p.master.dispatched
    && (forall t :: 0 <= t < |p.sent| ==> 0 <= p.sent[t] < |p.workers|)
    && (forall t :: 0 <= t < |p.sent| && t !in p.finished ==> TestOf(p.workers[p.sent[t]]) == t)
  }

  ghost predicate FinishedOnce(p: Pool) {
    && (forall t :: t in p.finished ==> 0 <= t < |p.sent|)
    && (forall a, b :: 0 <= a < b < |p.finished| ==> p.finished[a] != p.finished[b])
  }

  ghost predicate HeldByReceivers(p: Pool) {
    forall j :: 0 <= j < |p.workers| && TestOf(p.workers[j]) >= 0 ==>
      var t := TestOf(p.workers[j]); t < |p.sent| && p.sent[t] == j && t !in p.finished
  }

  lemma BeginIsConsistent(n: nat, total: nat)
    ensures Consistent(Begin(n, total)) && Accounted(Begin(n, total))
  {
    var p := Begin(n, total);
    CountFull(p.master.open);
    CountFull(HoldingAll(p));
  }

  lemma StepKeepsCoherent(p: Pool, e: Event, i: int)
    requires Consistent(p) && Enabled(p, e) && 0 <= i < |p.workers|
    ensures Coherent(Step(p, e), i)
  {
    assert Coherent(p, i) && Coherent(p, e.j);
  }

  lemma ServeCounts(p: Pool, e: Event)
    requires Consistent(p) && Enabled(p, e) && e.Serve?
    ensures var p' := Step(p, e);
            && p'.master.exited == |p.workers| - Count(p'.master.open)
            && p'.master.dispatched == p'.master.passed + Count(HoldingAll(p'))
  {
    var p', j := Step(p, e), e.j;
    CountUpdate(p.master.open, j, p'.master.open[j]);
    assert p'.master.open == p.master.open[j := p'.master.open[j]];
    CountUpdate(HoldingAll(p), j, Holding(p', j));
    assert HoldingAll(p') == HoldingAll(p)[j := Holding(p', j)];
  }

  lemma StepKeepsConsistent(p: Pool, e: Event)
    requires Consistent(p) && Enabled(p, e)
    ensures Consistent(Step(p, e))
  {
    var p' := Step(p, e);
    forall i | 0 <= i < |p.workers|
      ensures Coherent(p', i)
    {
      StepKeepsCoherent(p, e, i);
    }
    if e.Serve? {
      ServeCounts(p, e);
    } else {
      assert HoldingAll(p') == HoldingAll(p);
    }
    if p'.master.failed {
      StepKeepsFailure(p, e);
    }
  }

  lemma StepKeepsFailure(p: Pool, e: Event)
    requires Consistent(p) && Enabled(p, e) && Step(p, e).master.failed
    ensures exists j :: 0 <= j < |p.workers| && Step(p, e).workers[j].phase.Crashed?
  {
    if e.Eof? {
      assert Step(p, e).workers[e.j].phase.Crashed?;
    } else {
      var j :| 0 <= j < |p.workers| && p.workers[j].phase.Crashed?;
      assert Coherent(p, j);
      assert Step(p, e).workers[j].phase.Crashed?;
    }
  }

  lemma StepKeepsAccounts(p: Pool, e: Event)
    requires Consistent(p) && Accounted(p) && Enabled(p, e)
    ensures Accounted(Step(p, e))
  {
    StepKeepsSent(p, e);
    StepKeepsFinished(p, e);
    StepKeepsHeld(p, e);
  }

  lemma StepKeepsSent(p: Pool, e: Event)
    requires Consistent(p) && Accounted(p) && Enabled(p, e)
    ensures WellFormed(Step(p, e)) && SentOnce(Step(p, e))
  {
    assert Coherent(p, e.j);
  }

  lemma StepKeepsFinished(p: Pool, e: Event)
    requires Consistent(p) && Accounted(p) && Enabled(p, e)
    ensures FinishedOnce(Step(p, e))
  {
    assert Coherent(p, e.j);
  }

  lemma StepKeepsHeld(p: Pool, e: Event)
    requires Consistent(p) && Accounted(p) && Enabled(p, e)
    ensures HeldByReceivers(Step(p, e))
  {
    assert Coherent(p, e.j);
  }

  // ----- Runs -----

  /** es is a sequence of steps that p can take, one after the other. */
  ghost predicate CanRun(p: Pool, es: seq<Event>)
    decreases |es|
  {
    es == [] || (WellFormed(p) && Enabled(p, es[0]) && CanRun(Step(p, es[0]), es[1..]))
  }

  ghost function Run(p: Pool, es: seq<Event>): Pool
    requires CanRun(p, es)
    decreases |es|
  {
    if es == [] then p else Run(Step(p, es[0]), es[1..])
  }

  lemma {:induction false} RunKeeps(p: Pool, es: seq<Event>)
    requires Consistent(p) && Accounted(p) && CanRun(p, es)
    ensures Consistent(Run(p, es)) && Accounted(Run(p, es))
    decreases |es|
  {
    if es != [] {
      StepKeepsConsistent(p, es[0]);
      StepKeepsAccounts(p, es[0]);
      RunKeeps(Step(p, es[0]), es[1..]);
    }
  }

  /** In every interleaving: a test is sent to exactly one worker and finishes at most once, -1 is sent only
      when every test is dispatched, and each dispatched test is passed or held by one worker. */
  lemma RunIsSafe(n: nat, total: nat, es: seq<Event>)
    requires CanRun(Begin(n, total), es)
    ensures var p := Run(Begin(n, total), es);
            && Accounted(p) && |p.workers| == n
            && p.master.dispatched == p.master.passed + Count(HoldingAll(p))
            && p.served == p.master.dispatched + p.master.exited
            && (forall j :: 0 <= j < n && -1 in p.workers[j].replies ==> p.master.dispatched == total)
  {
    BeginIsConsistent(n, total);
    RunKeeps(Begin(n, total), es);
    var p := Run(Begin(n, total), es);
    RunKeepsSize(Begin(n, total), es);
    forall j | 0 <= j < n && -1 in p.workers[j].replies
      ensures p.master.dispatched == total
    {
      assert Coherent(p, j);
    }
  }

  lemma {:induction false} RunKeepsSize(p: Pool, es: seq<Event>)
    requires WellFormed(p) && CanRun(p, es)
    ensures |Run(p, es).workers| == |p.workers| && Run(p, es).master.total == p.master.total
    decreases |es|
  {
    if es != [] {
      RunKeepsSize(Step(p, es[0]), es[1..]);
    }
  }

  predicate NoCrash(es: seq<Event>) {
    forall i :: 0 <= i < |es| ==> !es[i].Crash?
  }

  ghost predicate AllWell(p: Pool) {
    forall j :: 0 <= j < |p.workers| ==> !p.workers[j].phase.Crashed?
  }

  lemma {:induction false} NoCrashAllWell(p: Pool, es: seq<Event>)
    requires WellFormed(p) && CanRun(p, es) && NoCrash(es) && AllWell(p)
    ensures AllWell(Run(p, es))
    decreases |es|
  {
    if es != [] {
      NoCrashAllWell(Step(p, es[0]), es[1..]);
    }
  }

  /** Nothing more can happen. */
  ghost predicate Stuck(p: Pool)
    requires WellFormed(p)
  {
    forall e: Event :: !Enabled(p, e)
  }

  /** Without crashes, the pool gets stuck only when every worker has exited: there is no deadlock. */
  lemma StuckMeansDone(p: Pool)
    requires Consistent(p) && AllWell(p) && Stuck(p)
    ensures forall j :: 0 <= j < |p.workers| ==> p.workers[j].phase.Exited?
  {
    forall j | 0 <= j < |p.workers|
      ensures p.workers[j].phase.Exited?
    {
      assert Coherent(p, j);
      assert !Enabled(p, Ask(j)) && !Enabled(p, Receive(j)) && !Enabled(p, Finish(j)) && !Enabled(p, Serve(j));
      CountFull(p.master.open);
    }
  }

  /** A crash-free run that cannot go on has passed and finished every test exactly once, has handled one
      request for each test and one for each worker, and has not failed. */
  lemma CrashFreeRunPassesAll(n: nat, total: nat, es: seq<Event>)
    requires 1 <= n && CanRun(Begin(n, total), es) && NoCrash(es)
    ensures WellFormed(Run(Begin(n, total), es))
    ensures Stuck(Run(Begin(n, total), es)) ==>
              var p := Run(Begin(n, total), es);
              && p.master.passed == total && p.master.exited == n && !p.master.failed
              && p.served == total + n
              && |p.finished| == total && (forall t :: 0 <= t < total ==> t in p.finished)
  {
    BeginIsConsistent(n, total);
    RunKeeps(Begin(n, total), es);
    RunKeepsSize(Begin(n, total), es);
    NoCrashAllWell(Begin(n, total), es);
    var p := Run(Begin(n, total), es);
    if Stuck(p) {
      StuckMeansDone(p);
      DoneCounts(p);
    }
  }

  lemma DoneCounts(p: Pool)
    requires Consistent(p) && Accounted(p) && 1 <= |p.workers|
    requires forall j :: 0 <= j < |p.workers| ==> p.workers[j].phase.Exited?
    ensures p.master.passed == p.master.total && p.master.exited == |p.workers| && !p.master.failed
    ensures p.served == p.master.total + |p.workers|
    ensures |p.finished| == p.master.total
    ensures forall t :: 0 <= t < p.master.total ==> t in p.finished
  {
    forall j | 0 <= j < |p.workers|
      ensures !p.master.open[j] && TestOf(p.workers[j]) == -1
    {
      assert Coherent(p, j);
    }
    CountFull(p.master.open);
    CountFull(HoldingAll(p));
    assert !p.master.open[0];
    ListLength(p.finished, p.master.total);
  }

  /** A list without repetition of exactly the numbers below n has length n. */
  lemma {:induction false} ListLength(s: seq<int>, n: nat)
    requires forall a, b :: 0 <= a < b < |s| ==> s[a] != s[b]
    requires forall t :: t in s <==> 0 <= t < n
    ensures |s| == n
  {
    if n == 0 {
      if s != [] {
        HeadIn(s);
        assert false;
      }
    } else {
      assert n - 1 in s;
      var k :| 0 <= k < |s| && s[k] == n - 1;
      var r := s[..k] + s[k + 1..];
      forall t
        ensures t in r <==> 0 <= t < n - 1
      {
        if t in s && t != n - 1 {
          var i :| 0 <= i < |s| && s[i] == t;
          assert r[if i < k then i else i - 1] == t;
        }
        if t in r {
          var i :| 0 <= i < |r| && r[i] == t;
          assert s[if i < k then i else i + 1] == t;
        }
      }
      ListLength(r, n - 1);
    }
  }

  // ----- Termination -----

  /** What worker w still has to do before it asks again, in steps; an exited worker counts 1. */
  function Weight(w: Worker): nat {
    match w.phase
    case Asking => 4
    case Waiting => if w.replies == [] then 3 else if w.replies[0] < 0 then 2 else 6
    case Running(_) => 5
    case Exited => 1
    case Crashed(_) => 0
  }

  function WeightAll(ws: seq<Worker>): nat {
    if ws == [] then 0 else Weight(ws[0]) + WeightAll(ws[1..])
  }

  function Measure(p: Pool): int {
    WeightAll(p.workers) + 4 * (p.master.total - p.master.dispatched) + (if p.master.failed then 0 else 1)
  }

  lemma {:induction false} WeightUpdate(ws: seq<Worker>, j: nat, w: Worker)
    requires j < |ws|
    ensures WeightAll(ws[j := w]) == WeightAll(ws) - Weight(ws[j]) + Weight(w)
  {
    if j == 0 {
      assert ws[0 := w][1..] == ws[1..];
    } else {
      WeightUpdate(ws[1..], j - 1, w);
      assert ws[j := w][1..] == ws[1..][j - 1 := w];
    }
  }

  /** Every step but a crash does exactly one unit of work; a crash gives up the rest of its worker's. */
  lemma StepDecreases(p: Pool, e: Event)
    requires Consistent(p) && Enabled(p, e)
    ensures Measure(Step(p, e)) == Measure(p) - (if e.Crash? then 5 else 1)
  {
    assert Coherent(p, e.j);
    var w' := Step(p, e).workers[e.j];
    WeightUpdate(p.workers, e.j, w');
    assert Step(p, e).workers == p.workers[e.j := w'];
  }

  lemma {:induction false} StartWeight(ws: seq<Worker>, w: Worker)
    requires forall j :: 0 <= j < |ws| ==> ws[j] == w
    ensures WeightAll(ws) == Weight(w) * |ws|
  {
    if ws != [] {
      StartWeight(ws[1..], w);
    }
  }

  lemma {:induction false} RunWork(p: Pool, es: seq<Event>)
    requires Consistent(p) && Accounted(p) && CanRun(p, es)
    ensures |es| <= Measure(p) - Measure(Run(p, es))
    ensures NoCrash(es) ==> |es| == Measure(p) - Measure(Run(p, es))
    decreases |es|
  {
    if es != [] {
      StepDecreases(p, es[0]);
      StepKeepsConsistent(p, es[0]);
      StepKeepsAccounts(p, es[0]);
      RunWork(Step(p, es[0]), es[1..]);
    }
  }

  /** Every run ends: no interleaving has more than 4 (n + total) + 1 steps; and a crash-free run that cannot
      go on has exactly 3 n + 4 total. */
  lemma RunsEnd(n: nat, total: nat, es: seq<Event>)
    requires 1 <= n && CanRun(Begin(n, total), es)
    ensures WellFormed(Run(Begin(n, total), es))
    ensures |es| <= 4 * (n + total) + 1
    ensures NoCrash(es) && Stuck(Run(Begin(n, total), es)) ==> |es| == 3 * n + 4 * total
  {
    var p := Begin(n, total);
    BeginIsConsistent(n, total);
    RunKeeps(p, es);
    RunKeepsSize(p, es);
    RunWork(p, es);
    var p' := Run(p, es);
    BeginMeasure(n, total);
    assert 0 <= Measure(p');
    if NoCrash(es) && Stuck(p') {
      NoCrashAllWell(p, es);
      EndMeasure(p');
    }
  }

  lemma BeginMeasure(n: nat, total: nat)
    ensures Measure(Begin(n, total)) == 4 * (n + total) + 1
  {
    StartWeight(Begin(n, total).workers, Worker(Asking, 0, []));
  }

  lemma EndMeasure(p: Pool)
    requires Consistent(p) && Accounted(p) && 1 <= |p.workers| && AllWell(p) && Stuck(p)
    ensures Measure(p) == |p.workers| + 1
  {
    StuckMeansDone(p);
    DoneCounts(p);
    assert p.master.dispatched == p.master.total by {
      assert Coherent(p, 0);
    }
    OnesWeight(p.workers);
  }

  lemma {:induction false} OnesWeight(ws: seq<Worker>)
    requires forall j :: 0 <= j < |ws| ==> Weight(ws[j]) == 1
    ensures WeightAll(ws) == |ws|
  {
    if ws != [] {
      OnesWeight(ws[1..]);
    }
  }

  // ----- Crashes -----

  /** Worker j has finished the test it was sent, and the master does not know yet. */
  predicate Uncounted(p: Pool, j: int)
    requires WellFormed(p) && 0 <= j < |p.workers|
  {
    Holding(p, j) && TestOf(p.workers[j]) < 0
  }

  function UncountedAll(p: Pool): seq<bool>
    requires WellFormed(p)
  {
    seq(|p.workers|, j requires 0 <= j < |p.workers| => Uncounted(p, j))
  }

  /** The passed tests are finished ones: all but those the master has not heard of. */
  ghost predicate Earned(p: Pool) {
    WellFormed(p) && |p.finished| == p.master.passed + Count(UncountedAll(p))
  }

  lemma StepKeepsEarned(p: Pool, e: Event)
    requires Consistent(p) && Enabled(p, e) && Earned(p)
    ensures Earned(Step(p, e))
  {
    var p', j := Step(p, e), e.j;
    assert Coherent(p, j);
    CountUpdate(UncountedAll(p), j, Uncounted(p', j));
    forall i | 0 <= i < |p.workers| && i != j
      ensures Uncounted(p', i) == Uncounted(p, i)
    {
      StepLeavesOthers(p, e, i);
    }
    assert UncountedAll(p') == UncountedAll(p)[j := Uncounted(p', j)];
  }

  /** A step of worker e.j changes nothing about the other workers. */
  lemma StepLeavesOthers(p: Pool, e: Event, i: int)
    requires WellFormed(p) && Enabled(p, e) && 0 <= i < |p.workers| && i != e.j
    ensures var p' := Step(p, e);
            && WellFormed(p') && |p'.workers| == |p.workers|
            && p'.workers[i] == p.workers[i]
            && p'.master.first[i] == p.master.first[i] && p'.master.open[i] == p.master.open[i]
  {
  }

  lemma {:induction false} RunKeepsEarned(p: Pool, es: seq<Event>)
    requires Consistent(p) && CanRun(p, es) && Earned(p)
    ensures Earned(Run(p, es))
    decreases |es|
  {
    if es != [] {
      StepKeepsConsistent(p, es[0]);
      StepKeepsEarned(p, es[0]);
      RunKeepsEarned(Step(p, es[0]), es[1..]);
    }
  }

  /** A pool that is stuck with a crashed worker has noticed: the worker's pipe is open and drained, so its end
      of file comes as soon as the master listens. */
  lemma StuckCrashIsNoticed(p: Pool, j: int)
    requires Consistent(p) && Stuck(p) && 0 <= j < |p.workers| && p.workers[j].phase.Crashed?
    ensures p.master.failed
  {
    assert Coherent(p, j) && !Enabled(p, Eof(j));
    CountFull(p.master.open);
  }

  /** In a run that cannot go on, the master reports failure exactly when some worker crashed. */
  lemma FailureMeansCrash(n: nat, total: nat, es: seq<Event>)
    requires CanRun(Begin(n, total), es)
    ensures WellFormed(Run(Begin(n, total), es))
    ensures Stuck(Run(Begin(n, total), es)) ==>
              var p := Run(Begin(n, total), es);
              (p.master.failed <==> exists j :: 0 <= j < |p.workers| && p.workers[j].phase.Crashed?)
  {
    BeginIsConsistent(n, total);
    RunKeeps(Begin(n, total), es);
    var p := Run(Begin(n, total), es);
    if Stuck(p) {
      forall j | 0 <= j < |p.workers| && p.workers[j].phase.Crashed?
        ensures p.master.failed
      {
        StuckCrashIsNoticed(p, j);
      }
    }
  }

  /** With crashes too, a test that did not run to its end is never counted as passed, and the master reports
      failure only if a worker did crash. */
  lemma PassedTestsFinished(n: nat, total: nat, es: seq<Event>)
    requires CanRun(Begin(n, total), es)
    ensures var p := Run(Begin(n, total), es);
            && p.master.passed <= |p.finished|
            && (p.master.failed ==> exists j :: 0 <= j < |p.workers| && p.workers[j].phase.Crashed?)
  {
    var p := Begin(n, total);
    BeginIsConsistent(n, total);
    CountFull(UncountedAll(p));
    RunKeepsEarned(p, es);
    RunKeeps(p, es);
  }
}
