/** The parallel check queue. A thread holds the mutex from one wait or one piece of work to the next;
    every such region is one step of the system below, and the steps of any number of threads may come in
    any order, with spurious wakeups. */
module CheckQueue {
  import opened Common

  /** The fields of CCheckQueue. */
  datatype Shared<T> = Shared(queue: seq<T>, nIdle: nat, nTotal: nat, fAllOk: bool, nTodo: int, fQuit: bool,
      nBatchSize: nat)

  /** How a region ends: Loop returns, waits, or leaves with work to do. */
  datatype Next<T> = Return(fRet: bool) | Wait | Work(vChecks: seq<T>, fOk: bool)

  function BatchSize<T>(q: Shared<T>): (nNow: nat)
    ensures 1 <= nNow <= Max(1, q.nBatchSize) && (q.queue != [] ==> nNow <= |q.queue|)
  {
    var share := |q.queue| / (q.nTotal + q.nIdle + 1);
    ShareBound(|q.queue|, q.nTotal + q.nIdle);
    Max(1, Min(q.nBatchSize, share))
  }

  lemma ShareBound(n: nat, others: nat)
    ensures 0 <= n / (others + 1) <= n
  {
    var share := n / (others + 1);
    assert share * (others + 1) <= n;
    assert share * others >= 0;
  }

  /** The loop that waits for work, from its test to a wait or to its exit, and the choice of a batch. */
  function Decide<T>(q: Shared<T>, fMaster: bool): (Shared<T>, Next<T>)
    requires q.nTotal > 0
  {
    if q.queue == [] then
      if (fMaster || q.fQuit) && q.nTodo == 0 then
        (q.(nTotal := q.nTotal - 1, fAllOk := fMaster || q.fAllOk), Return(q.fAllOk))
      else
        (q.(nIdle := q.nIdle + 1), Wait)
    else
      var keep := |q.queue| - BatchSize(q);
      (q.(queue := q.queue[..keep]), Work(Reversed(q.queue[keep..]), q.fAllOk))
  }

  /** The clean-up after `nNow` checks, or the first entry. */
  function Settle<T>(q: Shared<T>, nNow: nat, fOk: bool): Shared<T> {
    if nNow != 0 then q.(fAllOk := q.fAllOk && fOk, nTodo := q.nTodo - nNow) else q.(nTotal := q.nTotal + 1)
  }

  function WakesMaster<T>(q: Shared<T>, fMaster: bool, nNow: nat): bool { nNow != 0 && q.nTodo == nNow && !fMaster }

  /** The queue itself; its methods are the regions of Loop that hold the mutex. */
  class CCheckQueue<T> {
    var queue: seq<T>
    var nIdle: nat
    var nTotal: nat
    var fAllOk: bool
    var nTodo: int
    var fQuit: bool
    const nBatchSize: nat

    ghost function State(): Shared<T>
      reads this
    {
      Shared(queue, nIdle, nTotal, fAllOk, nTodo, fQuit, nBatchSize)
    }

    constructor (nBatchSizeIn: nat)
      ensures State() == Shared([], 0, 0, true, 0, false, nBatchSizeIn)
    {
      queue, nIdle, nTotal, fAllOk, nTodo, fQuit, nBatchSize := [], 0, 0, true, 0, false, nBatchSizeIn;
    }

    /** A thread comes with the result of its last batch, or for the first time. */
    method Enter(fMaster: bool, nNow: nat, fOk: bool) returns (next: Next<T>, notifyMaster: bool)
      requires nNow != 0 ==> nTotal > 0
      modifies this
      ensures notifyMaster == WakesMaster(old(State()), fMaster, nNow)
      ensures (State(), next) == Decide(Settle(old(State()), nNow, fOk), fMaster)
    {
      notifyMaster := false;
      if nNow != 0 {
        fAllOk := fAllOk && fOk;
        nTodo := nTodo - nNow;
        if nTodo == 0 && !fMaster {
          notifyMaster := true;
        }
      } else {
        nTotal := nTotal + 1;
      }
      next := Proceed(fMaster);
    }

    /** A waiting thread goes on. */
    method Resume(fMaster: bool) returns (next: Next<T>)
      requires nIdle > 0 && nTotal > 0
      modifies this
      ensures (State(), next) == Decide(old(State()).(nIdle := old(nIdle) - 1), fMaster)
    {
      nIdle := nIdle - 1;
      next := Proceed(fMaster);
    }

    method Proceed(fMaster: bool) returns (next: Next<T>)
      requires nTotal > 0
      modifies this
      ensures (State(), next) == Decide(old(State()), fMaster)
    {
      if |queue| == 0 {
        if (fMaster || fQuit) && nTodo == 0 {
          nTotal := nTotal - 1;
          var fRet := fAllOk;
          if fMaster {
            fAllOk := true;
          }
          return Return(fRet);
        }
        nIdle := nIdle + 1;
        return Wait;
      }
      var nNow := BatchSize(Shared(queue, nIdle, nTotal, fAllOk, nTodo, fQuit, nBatchSize));
      var vChecks := [];
      ghost var all := queue;
      for i := 0 to nNow
        invariant queue == all[..|all| - i] && |vChecks| == i
        invariant forall j | 0 <= j < i :: vChecks[j] == all[|all| - 1 - j]
        invariant unchanged(this`nIdle, this`nTotal, this`fAllOk, this`nTodo, this`fQuit)
      {
        vChecks := vChecks + [queue[|queue| - 1]];
        queue := queue[..|queue| - 1];
      }
      assert vChecks == Reversed(all[|all| - nNow..]);
      next := Work(vChecks, fAllOk);
    }

    /** Adding checks; the caller wakes one worker for one check and all of them for more. */
    method Add(vChecks: seq<T>) returns (notifyOne: bool, notifyAll: bool)
      modifies this
      ensures State() == old(State()).(queue := old(queue) + vChecks, nTodo := old(nTodo) + |vChecks|)
      ensures notifyOne == (|vChecks| == 1) && notifyAll == (|vChecks| > 1)
    {
      for i := 0 to |vChecks|
        invariant queue == old(queue) + vChecks[..i]
        invariant unchanged(this`nIdle, this`nTotal, this`fAllOk, this`nTodo, this`fQuit)
      {
        queue := queue + [vChecks[i]];
      }
      assert vChecks[..|vChecks|] == vChecks;
      nTodo := nTodo + |vChecks|;
      notifyOne, notifyAll := |vChecks| == 1, |vChecks| > 1;
    }
  }

  ghost predicate All<T>(check: T -> bool, s: seq<T>) { forall i | 0 <= i < |s| :: check(s[i]) }

  /** Outside the mutex: the checks of a batch, up to the first that fails. */
  method Execute<T>(check: T -> bool, vChecks: seq<T>, fOk0: bool) returns (fOk: bool)
    ensures fOk == (fOk0 && All(check, vChecks))
  {
    fOk := fOk0;
    for i := 0 to |vChecks|
      invariant fOk == (fOk0 && forall j | 0 <= j < i :: check(vChecks[j]))
    {
      if fOk {
        fOk := check(vChecks[i]);
      }
    }
  }

  // ---------------------------------------------------------------- the threads

  /** Where a thread is: not in Loop, about to enter it, at work outside the mutex, waiting, woken but
      without the mutex yet, or returned from Loop. */
  datatype Thread<T> = Outside | Entering | Running(vChecks: seq<T>,
      fOk: bool) | Waiting | Notified | Returned(fRet: bool)

  /** All threads, of which number 0 is the master. `control`: a CCheckQueueControl holds the control mutex.
      `added` are the checks that were added under it. */
  datatype System<T> = System(q: Shared<T>, threads: seq<Thread<T>>, control: bool, added: seq<T>)

  function After<T>(next: Next<T>): Thread<T> {
    match next
    case Return(fRet) => Returned(fRet)
    case Wait => Waiting
    case Work(vChecks, fOk) => Running(vChecks, fOk)
  }

  function InLoop<T>(t: Thread<T>): nat { if t.Running? || t.Waiting? || t.Notified? then 1 else 0 }
  function IsIdle<T>(t: Thread<T>): nat { if t.Waiting? || t.Notified? then 1 else 0 }
  function Load<T>(t: Thread<T>): nat { if t.Running? then |t.vChecks| else 0 }

  function Sum<T>(threads: seq<Thread<T>>, weight: Thread<T> -> nat): nat {
    if threads == [] then 0 else Sum(threads[..|threads| - 1], weight) + weight(threads[|threads| - 1])
  }

  /** Thread t takes the mutex, coming from outside or from its batch. */
  ghost predicate EnterStep<T(!new)>(check: T -> bool, s: System<T>, s': System<T>, t: nat) {
    && t < |s.threads| && (s.threads[t].Entering? || (s.threads[t].Running? && s.q.nTotal > 0))
    && var (nNow, fOk) := match s.threads[t]
         case Running(vChecks, f) => (|vChecks|, f && All(check, vChecks))
         case _ => (0, true);
    && (nNow == 0 || s.q.nTotal > 0)
    && var (q', next) := Decide(Settle(s.q, nNow, fOk), t == 0);
    && s'.q == q'
    && s'.threads == Signal(s.threads[t := After(next)], WakesMaster(s.q, t == 0, nNow))
    && s'.control == s.control && s'.added == s.added
  }

  /** condMaster.notify_one: it reaches the master only if that one is waiting. */
  function Signal<T>(threads: seq<Thread<T>>, wake: bool): seq<Thread<T>> {
    if wake && threads != [] && threads[0].Waiting? then threads[0 := Notified] else threads
  }

  /** A thread leaves its wait, because it was notified or for no reason. */
  ghost predicate ResumeStep<T>(s: System<T>, s': System<T>, t: nat) {
    && t < |s.threads| && (s.threads[t].Notified? || s.threads[t].Waiting?) && s.q.nIdle > 0 && s.q.nTotal > 0
    && var (q', next) := Decide(s.q.(nIdle := s.q.nIdle - 1), t == 0);
    && s'.q == q' && s'.threads == s.threads[t := After(next)] && s'.control == s.control && s'.added == s.added
  }

  /** A worker is started. */
  ghost predicate StartStep<T>(s: System<T>, s': System<T>, t: nat) {
    0 < t < |s.threads| && s.threads[t].Outside? && s' == s.(threads := s.threads[t := Entering])
  }

  /** The constructor of CCheckQueueControl. */
  ghost predicate OpenStep<T>(s: System<T>, s': System<T>) {
    |s.threads| > 0 && s.threads[0].Outside? && !s.control && s' == s.(control := true)
  }

  /** The master adds checks. */
  ghost predicate AddStep<T>(s: System<T>, s': System<T>, vChecks: seq<T>) {
    && |s.threads| > 0 && s.threads[0].Outside? && s.control && s'.control
    && s'.q == s.q.(queue := s.q.queue + vChecks, nTodo := s.q.nTodo + |vChecks|)
    && s'.added == s.added + vChecks
    && WorkersWoken(s.threads, s'.threads, |vChecks|)
  }

  /** One check wakes one waiting worker, if there is one; more checks wake all of them. */
  ghost predicate WorkersWoken<T>(a: seq<Thread<T>>, b: seq<Thread<T>>, n: nat) {
    && |b| == |a| > 0 && b[0] == a[0]
    && (forall i | 0 < i < |a| :: b[i] == a[i] || (a[i].Waiting? && b[i].Notified?))
    && (n == 0 ==> b == a)
    && (n == 1 ==> if exists i :: 0 < i < |a| && a[i].Waiting? then exists i ::
                                                                      0 < i < |a| && a[i].Waiting?
                                                                      && b == a[i := Notified] else b == a)
    && (n > 1 ==> forall i | 0 < i < |a| :: !b[i].Waiting?)
  }

  /** The master calls Wait. */
  ghost predicate WaitStep<T>(s: System<T>, s': System<T>) {
    |s.threads| > 0 && s.threads[0].Outside? && s.control && s' == s.(threads := s.threads[0 := Entering])
  }

  /** Wait is over and the control mutex is free again. */
  ghost predicate CloseStep<T>(s: System<T>, s': System<T>) {
    |s.threads| > 0 && s.threads[0].Returned?
        && s' == s.(threads := s.threads[0 := Outside], control := false, added := [])
  }

  ghost predicate Step<T(!new)>(check: T -> bool, s: System<T>, s': System<T>) {
    || (exists t :: EnterStep(check, s, s', t)) || (exists t :: ResumeStep(s, s', t))
        || (exists t :: StartStep(s, s', t))
    || OpenStep(s, s') || (exists vChecks :: AddStep(s, s', vChecks)) || WaitStep(s, s') || CloseStep(s, s')
  }

  ghost predicate Start<T>(s: System<T>) {
    && s.q == Shared([], 0, 0, true, 0, false, s.q.nBatchSize)
    && |s.threads| > 0 && (forall t | 0 <= t < |s.threads| :: s.threads[t].Outside?) && !s.control && s.added == []
  }

  ghost predicate IsRun<T(!new)>(check: T -> bool, run: seq<System<T>>) {
    run != [] && Start(run[0]) && forall i | 0 < i < |run| :: Step(check, run[i - 1], run[i])
  }

  // ---------------------------------------------------------------- the invariant

  /** The counters count. */
  ghost predicate Counted<T>(s: System<T>) {
    && |s.threads| > 0 && !s.q.fQuit
    && s.q.nTodo == |s.q.queue| + Sum(s.threads, Load)
    && s.q.nTotal == Sum(s.threads, InLoop) && s.q.nIdle == Sum(s.threads, IsIdle)
  }

  ghost predicate BatchesOk<T>(check: T -> bool, threads: seq<Thread<T>>) {
    forall t | 0 <= t < |threads| && threads[t].Running? :: All(check, threads[t].vChecks)
  }

  /** fAllOk, the queue and the batches together say whether all added checks hold. */
  ghost predicate Judged<T>(check: T -> bool, s: System<T>)
    requires |s.threads| > 0
  {
    && (forall t | 0 <= t < |s.threads| && s.threads[t].Running? ::
          s.threads[t].vChecks != [] && (s.threads[t].fOk || !s.q.fAllOk))
    && if s.threads[0].Returned? then s.threads[0].fRet == All(check, s.added) && s.q.fAllOk
       else All(check, s.added) <==> s.q.fAllOk && All(check, s.q.queue) && BatchesOk(check, s.threads)
  }

  ghost predicate MasterOk<T>(s: System<T>)
    requires |s.threads| > 0
  {
    && (forall t | 0 < t < |s.threads| :: !s.threads[t].Returned?)
    && (s.threads[0].Returned? ==> s.control && s.q.nTodo == 0)
    && (!s.control ==> s.threads[0].Outside? && s.added == [] && s.q.nTodo == 0 && s.q.fAllOk)
    && (s.threads[0].Waiting? ==> s.q.nTodo > 0)
    && (s.threads[0].Waiting? || s.threads[0].Notified? ==> s.q.queue == [])
  }

  /** While there is work in the queue some worker that was started is awake. */
  ghost predicate WorkersOk<T>(s: System<T>)
    requires |s.threads| > 0
  {
    s.q.queue != [] ==>
      || (exists t :: 0 < t < |s.threads| && Awake(s.threads[t]))
      || (forall t | 0 < t < |s.threads| :: s.threads[t].Outside?)
  }

  predicate Awake<T>(t: Thread<T>) { t.Entering? || t.Running? || t.Notified? }

  ghost predicate Inv<T>(check: T -> bool, s: System<T>) {
    Counted(s) && Judged(check, s) && MasterOk(s) && WorkersOk(s)
  }

  // ---------------------------------------------------------------- sums over threads

  lemma {:induction false} SumUpdate<T>(threads: seq<Thread<T>>, weight: Thread<T> -> nat, i: nat, t: Thread<T>)
    requires i < |threads|
    ensures Sum(threads[i := t], weight) == Sum(threads, weight) - weight(threads[i]) + weight(t)
    ensures Sum(threads, weight) >= weight(threads[i])
  {
    var k := |threads| - 1;
    if i == k {
      assert threads[i := t][..k] == threads[..k];
    } else {
      assert threads[i := t][..k] == threads[..k][i := t];
      SumUpdate(threads[..k], weight, i, t);
    }
  }

  lemma {:induction false} SumSame<T>(a: seq<Thread<T>>, b: seq<Thread<T>>, weight: Thread<T> -> nat)
    requires |a| == |b| && forall i | 0 <= i < |a| :: weight(a[i]) == weight(b[i])
    ensures Sum(a, weight) == Sum(b, weight)
  {
    if a != [] {
      SumSame(a[..|a| - 1], b[..|b| - 1], weight);
    }
  }

  lemma {:induction false} SumZero<T>(threads: seq<Thread<T>>, weight: Thread<T> -> nat)
    requires forall i | 0 <= i < |threads| :: weight(threads[i]) == 0
    ensures Sum(threads, weight) == 0
  {
    if threads != [] {
      SumZero(threads[..|threads| - 1], weight);
    }
  }

  lemma {:induction false} SumPositive<T>(threads: seq<Thread<T>>, weight: Thread<T> -> nat) returns (i: nat)
    requires Sum(threads, weight) > 0
    ensures i < |threads| && weight(threads[i]) > 0
  {
    var k := |threads| - 1;
    if weight(threads[k]) > 0 {
      i := k;
    } else {
      i := SumPositive(threads[..k], weight);
    }
  }

  // ---------------------------------------------------------------- every step keeps the invariant

  /** Thread t holds the mutex; it is counted in nTotal but stands for no work and no sleeper. */
  ghost predicate Holding<T>(check: T -> bool, s: System<T>, t: nat) {
    && t < |s.threads| && s.threads[t].Outside? && s.q.nTotal > 0
    && Counted(s.(q := s.q.(nTotal := s.q.nTotal - 1))) && Judged(check, s) && MasterOk(s)
    && (t == 0 ==> s.control && WorkersOk(s))
  }

  function Placed<T>(s: System<T>, q: Shared<T>, t: nat, thread: Thread<T>): System<T>
    requires t < |s.threads|
  {
    System(q, s.threads[t := thread], s.control, s.added)
  }

  lemma PlacedSums<T>(s: System<T>, t: nat, thread: Thread<T>)
    requires t < |s.threads|
    ensures Sum(s.threads[t := thread], Load) == Sum(s.threads, Load) - Load(s.threads[t]) + Load(thread)
    ensures Sum(s.threads[t := thread], InLoop) == Sum(s.threads, InLoop) - InLoop(s.threads[t]) + InLoop(thread)
    ensures Sum(s.threads[t := thread], IsIdle) == Sum(s.threads, IsIdle) - IsIdle(s.threads[t]) + IsIdle(thread)
    ensures Sum(s.threads, Load) >= Load(s.threads[t]) && Sum(s.threads, InLoop) >= InLoop(s.threads[t])
        && Sum(s.threads, IsIdle) >= IsIdle(s.threads[t])
  {
    SumUpdate(s.threads, Load, t, thread);
    SumUpdate(s.threads, InLoop, t, thread);
    SumUpdate(s.threads, IsIdle, t, thread);
  }

  /** With nothing to do nobody has a batch. */
  lemma NobodyRuns<T>(check: T -> bool, s: System<T>)
    requires |s.threads| > 0 && Judged(check, s) && s.q.nTodo == 0 == |s.q.queue| + Sum(s.threads, Load)
    ensures s.q.queue == [] && forall t | 0 <= t < |s.threads| :: !s.threads[t].Running?
  {
    forall t | 0 <= t < |s.threads| ensures !s.threads[t].Running? {
      PlacedSums(s, t, Outside);
    }
  }

  lemma DecideReturns<T>(check: T -> bool, s: System<T>, t: nat)
    requires Holding(check, s, t) && Decide(s.q, t == 0).1.Return?
    ensures Inv(check, Placed(s, Decide(s.q, t == 0).0, t, After(Decide(s.q, t == 0).1)))
  {
    PlacedSums(s, t, After(Decide(s.q, t == 0).1));
    NobodyRuns(check, s);
  }

  lemma DecideWaits<T>(check: T -> bool, s: System<T>, t: nat)
    requires Holding(check, s, t) && Decide(s.q, t == 0).1.Wait?
    ensures Inv(check, Placed(s, Decide(s.q, t == 0).0, t, Waiting))
  {
    PlacedSums(s, t, Waiting);
    var s' := Placed(s, Decide(s.q, t == 0).0, t, Waiting);
    SameBatches(check, s.threads, s'.threads);
  }

  lemma BatchAll<T>(check: T -> bool, queue: seq<T>, keep: nat)
    requires keep <= |queue|
    ensures All(check, queue) <==> All(check, queue[..keep]) && All(check, Reversed(queue[keep..]))
  {
    var batch := Reversed(queue[keep..]);
    if All(check, queue[..keep]) && All(check, batch) {
      forall i | 0 <= i < |queue| ensures check(queue[i]) {
        if i < keep { assert queue[..keep][i] == queue[i]; } else { assert batch[|queue| - 1 - i] == queue[i]; }
      }
    }
  }

  lemma DecideWorks<T>(check: T -> bool, s: System<T>, t: nat)
    requires Holding(check, s, t) && Decide(s.q, t == 0).1.Work?
    ensures Inv(check, Placed(s, Decide(s.q, t == 0).0, t, After(Decide(s.q, t == 0).1)))
  {
    hide BatchSize;
    var thread := After(Decide(s.q, t == 0).1);
    var s' := Placed(s, Decide(s.q, t == 0).0, t, thread);
    PlacedSums(s, t, thread);
    BatchAll(check, s.q.queue, |s.q.queue| - BatchSize(s.q));
    WorkerStarts(check, s.threads, t, thread);
    if t == 0 {
      SameWorkers(s, s');
    } else {
      assert Awake(s'.threads[t]);
    }
  }

  lemma WorkerStarts<T>(check: T -> bool, threads: seq<Thread<T>>, t: nat, thread: Thread<T>)
    requires t < |threads| && threads[t].Outside? && thread.Running?
    ensures BatchesOk(check, threads[t := thread]) <==> BatchesOk(check, threads) && All(check, thread.vChecks)
  {
    var threads' := threads[t := thread];
    if BatchesOk(check, threads') {
      assert All(check, threads'[t].vChecks);
      forall u | 0 <= u < |threads| && threads[u].Running? ensures All(check, threads[u].vChecks) {
        assert threads'[u] == threads[u];
      }
    }
  }

  /** The master does not count as a worker. */
  lemma SameWorkers<T>(s: System<T>, s': System<T>)
    requires |s.threads| == |s'.threads| > 0 && forall i | 0 < i < |s.threads| :: s.threads[i] == s'.threads[i]
    requires s'.q.queue != [] ==> s.q.queue != []
    requires WorkersOk(s)
    ensures WorkersOk(s')
  {
    if t :| 0 < t < |s.threads| && Awake(s.threads[t]) {
      assert Awake(s'.threads[t]);
    }
  }

  lemma DecideKeeps<T>(check: T -> bool, s: System<T>, t: nat)
    requires Holding(check, s, t)
    ensures Inv(check, Placed(s, Decide(s.q, t == 0).0, t, After(Decide(s.q, t == 0).1)))
  {
    hide Inv, Holding, Decide;
    assert s.q.nTotal > 0 && t < |s.threads| by { HoldingBasics(check, s, t); }
    match Decide(s.q, t == 0).1
    case Return(_) => DecideReturns(check, s, t);
    case Wait => DecideWaits(check, s, t);
    case Work(_, _) => DecideWorks(check, s, t);
  }

  lemma HoldingBasics<T>(check: T -> bool, s: System<T>, t: nat)
    requires Holding(check, s, t)
    ensures s.q.nTotal > 0 && t < |s.threads|
  {
  }

  /** A thread with a batch comes back. */
  lemma FinishHolds<T>(check: T -> bool, s: System<T>, t: nat)
    requires Inv(check, s) && t < |s.threads| && s.threads[t].Running?
    ensures var nNow, fOk := |s.threads[t].vChecks|, s.threads[t].fOk && All(check, s.threads[t].vChecks);
            var threads := Signal(s.threads[t := Outside], WakesMaster(s.q, t == 0, nNow));
            nNow > 0 && s.q.nTotal > 0 && Holding(check, System(Settle(s.q, nNow, fOk), threads, s.control, s.added), t)
  {
    hide Sum;
    var nNow, fOk := |s.threads[t].vChecks|, s.threads[t].fOk && All(check, s.threads[t].vChecks);
    var wake := WakesMaster(s.q, t == 0, nNow);
    var mid := s.(threads := s.threads[t := Outside]);
    var s1 := System(Settle(s.q, nNow, fOk), Signal(mid.threads, wake), s.control, s.added);
    PlacedSums(s, t, Outside);
    PlacedSums(mid, 0, Notified);
    WorkerLeaves(check, s.threads, t);
    SameBatches(check, mid.threads, s1.threads);
    if t == 0 {
      SameWorkers(s, s1);
    }
  }

  lemma SameBatches<T>(check: T -> bool, a: seq<Thread<T>>, b: seq<Thread<T>>)
    requires |a| == |b| && forall t | 0 <= t < |a| :: if a[t].Running? then b[t] == a[t] else !b[t].Running?
    ensures BatchesOk(check, a) <==> BatchesOk(check, b)
  {
    forall t | 0 <= t < |a| ensures a[t].Running? ==> b[t] == a[t]
                                                      && (All(check, a[t].vChecks) <==> All(check, b[t].vChecks)) {
    }
    if BatchesOk(check, b) {
      forall t | 0 <= t < |a| && a[t].Running? ensures All(check, a[t].vChecks) {
        assert b[t].Running?;
      }
    }
    if BatchesOk(check, a) {
      forall t | 0 <= t < |a| && b[t].Running? ensures All(check, b[t].vChecks) {
        assert a[t].Running?;
      }
    }
  }

  lemma WorkerLeaves<T>(check: T -> bool, threads: seq<Thread<T>>, t: nat)
    requires t < |threads| && threads[t].Running?
    ensures BatchesOk(check, threads) <==> BatchesOk(check, threads[t := Outside]) && All(check, threads[t].vChecks)
  {
    var threads' := threads[t := Outside];
    if BatchesOk(check, threads') && All(check, threads[t].vChecks) {
      forall u | 0 <= u < |threads| && threads[u].Running? ensures All(check, threads[u].vChecks) {
        assert u != t ==> threads'[u] == threads[u];
      }
    }
  }

  lemma EntryHolds<T>(check: T -> bool, s: System<T>, t: nat)
    requires Inv(check, s) && t < |s.threads| && s.threads[t].Entering?
    ensures Holding(check, System(Settle(s.q, 0, true), s.threads[t := Outside], s.control, s.added), t)
  {
    hide Sum;
    var s1 := System(Settle(s.q, 0, true), s.threads[t := Outside], s.control, s.added);
    PlacedSums(s, t, Outside);
    SameBatches(check, s.threads, s1.threads);
    if t == 0 {
      SameWorkers(s, s1);
    }
  }

  lemma EnterKeeps<T(!new)>(check: T -> bool, s: System<T>, s': System<T>, t: nat)
    requires Inv(check, s) && EnterStep(check, s, s', t)
    ensures Inv(check, s')
  {
    hide Inv, Holding, Decide, Settle;
    var (nNow, fOk) := match s.threads[t]
      case Running(vChecks, f) => (|vChecks|, f && All(check, vChecks))
      case _ => (0, true);
    var wake := WakesMaster(s.q, t == 0, nNow);
    var s1 := System(Settle(s.q, nNow, fOk), Signal(s.threads[t := Outside], wake), s.control, s.added);
    if s.threads[t].Running? {
      FinishHolds(check, s, t);
    } else {
      EntryHolds(check, s, t);
    }
    HoldingBasics(check, s1, t);
    DecideKeeps(check, s1, t);
    var thread := After(Decide(s1.q, t == 0).1);
    assert Signal(s.threads[t := Outside], wake)[t := thread] == Signal(s.threads[t := thread], wake);
    assert s' == Placed(s1, Decide(s1.q, t == 0).0, t, thread);
  }

  lemma ResumeHolds<T>(check: T -> bool, s: System<T>, t: nat)
    requires Inv(check, s) && t < |s.threads| && (s.threads[t].Notified? || s.threads[t].Waiting?)
    ensures s.q.nIdle > 0 && s.q.nTotal > 0
    ensures Holding(check, System(s.q.(nIdle := s.q.nIdle - 1), s.threads[t := Outside], s.control, s.added), t)
  {
    hide Sum;
    PlacedSums(s, t, Outside);
    var s1 := System(s.q.(nIdle := s.q.nIdle - 1), s.threads[t := Outside], s.control, s.added);
    SameBatches(check, s.threads, s1.threads);
    if t == 0 {
      SameWorkers(s, s1);
    }
  }

  lemma ResumeKeeps<T>(check: T -> bool, s: System<T>, s': System<T>, t: nat)
    requires Inv(check, s) && ResumeStep(s, s', t)
    ensures Inv(check, s')
  {
    hide Inv, Holding, Decide;
    var s1 := System(s.q.(nIdle := s.q.nIdle - 1), s.threads[t := Outside], s.control, s.added);
    ResumeHolds(check, s, t);
    DecideKeeps(check, s1, t);
    var thread := After(Decide(s1.q, t == 0).1);
    assert s.threads[t := Outside][t := thread] == s.threads[t := thread];
    assert s' == Placed(s1, Decide(s1.q, t == 0).0, t, thread);
  }

  lemma StartKeeps<T>(check: T -> bool, s: System<T>, s': System<T>, t: nat)
    requires Inv(check, s) && StartStep(s, s', t)
    ensures Inv(check, s')
  {
    hide Sum;
    PlacedSums(s, t, Entering);
    SameBatches(check, s.threads, s'.threads);
    assert Awake(s'.threads[t]);
  }

  lemma MasterKeeps<T>(check: T -> bool, s: System<T>, s': System<T>)
    requires Inv(check, s) && (OpenStep(s, s') || WaitStep(s, s') || CloseStep(s, s'))
    ensures Inv(check, s')
  {
    hide Sum;
    PlacedSums(s, 0, s'.threads[0]);
    if s.q.nTodo == 0 {
      NobodyRuns(check, s);
    }
    SameBatches(check, s.threads, s'.threads);
    SameWorkers(s, s');
  }

  lemma AddKeeps<T>(check: T -> bool, s: System<T>, s': System<T>, vChecks: seq<T>)
    requires Inv(check, s) && AddStep(s, s', vChecks)
    ensures Inv(check, s')
  {
    hide Sum;
    SumSame(s.threads, s'.threads, Load);
    SumSame(s.threads, s'.threads, InLoop);
    SumSame(s.threads, s'.threads, IsIdle);
    SameBatches(check, s.threads, s'.threads);
    AllConcat(check, s.added, vChecks);
    AllConcat(check, s.q.queue, vChecks);
    AddWakes(check, s, s', vChecks);
  }

  lemma AllConcat<T>(check: T -> bool, a: seq<T>, b: seq<T>)
    ensures All(check, a + b) <==> All(check, a) && All(check, b)
  {
    if All(check, a + b) {
      forall i | 0 <= i < |a| ensures check(a[i]) { assert (a + b)[i] == a[i]; }
      forall i | 0 <= i < |b| ensures check(b[i]) { assert (a + b)[|a| + i] == b[i]; }
    }
  }

  lemma AddWakes<T>(check: T -> bool, s: System<T>, s': System<T>, vChecks: seq<T>)
    requires Inv(check, s) && AddStep(s, s', vChecks)
    ensures WorkersOk(s')
  {
    hide Sum;
    if vChecks == [] {
      SameWorkers(s, s');
    } else if i :| 0 < i < |s.threads| && s'.threads[i].Notified? {
      assert Awake(s'.threads[i]);
    } else {
      forall i | 0 < i < |s.threads| ensures s'.threads[i].Outside? || Awake(s'.threads[i]) {
        assert !s'.threads[i].Waiting?;
      }
    }
  }

  lemma StepKeeps<T(!new)>(check: T -> bool, s: System<T>, s': System<T>)
    requires Inv(check, s) && Step(check, s, s')
    ensures Inv(check, s')
  {
    hide Inv, EnterStep, ResumeStep, StartStep, AddStep, OpenStep, WaitStep, CloseStep;
    if t :| EnterStep(check, s, s', t) {
      EnterKeeps(check, s, s', t);
    } else if t :| ResumeStep(s, s', t) {
      ResumeKeeps(check, s, s', t);
    } else if t :| StartStep(s, s', t) {
      StartKeeps(check, s, s', t);
    } else if vChecks :| AddStep(s, s', vChecks) {
      AddKeeps(check, s, s', vChecks);
    } else {
      MasterKeeps(check, s, s');
    }
  }

  /** Every state of every run satisfies the invariant. */
  lemma {:induction false} RunKeeps<T(!new)>(check: T -> bool, run: seq<System<T>>, i: nat)
    requires IsRun(check, run) && i < |run|
    ensures Inv(check, run[i])
  {
    if i == 0 {
      SumZero(run[0].threads, Load);
      SumZero(run[0].threads, InLoop);
      SumZero(run[0].threads, IsIdle);
    } else {
      RunKeeps(check, run, i - 1);
      StepKeeps(check, run[i - 1], run[i]);
    }
  }

  // ---------------------------------------------------------------- what it is for

  function IsRunning<T>(t: Thread<T>): nat { if t.Running? then 1 else 0 }

  /** nTodo counts the checks in the queue and those in flight, nTotal - nIdle the threads that work. */
  lemma CountersExact<T(!new)>(check: T -> bool, run: seq<System<T>>, i: nat)
    requires IsRun(check, run) && i < |run|
    ensures run[i].q.nTodo == |run[i].q.queue| + Sum(run[i].threads, Load)
    ensures run[i].q.nTotal - run[i].q.nIdle == Sum(run[i].threads, IsRunning)
  {
    RunKeeps(check, run, i);
    SumSplit(run[i].threads);
  }

  lemma {:induction false} SumSplit<T>(threads: seq<Thread<T>>)
    ensures Sum(threads, InLoop) == Sum(threads, IsIdle) + Sum(threads, IsRunning)
  {
    if threads != [] {
      SumSplit(threads[..|threads| - 1]);
    }
  }

  /** What the constructor of CCheckQueueControl asserts. */
  lemma ControlFindsQueueUnused<T(!new)>(check: T -> bool, run: seq<System<T>>, i: nat)
    requires IsRun(check, run) && i < |run| && !run[i].control
    ensures run[i].q.nTotal == run[i].q.nIdle && run[i].q.nTodo == 0 && run[i].q.fAllOk && run[i].q.queue == []
  {
    RunKeeps(check, run, i);
    NobodyRuns(check, run[i]);
    SumZero(run[i].threads, IsRunning);
    SumSplit(run[i].threads);
  }

  /** Wait returns whether all checks added since the control was constructed hold, no matter how the
      workers shared them. */
  lemma WaitIsConjunction<T(!new)>(check: T -> bool, run: seq<System<T>>, i: nat)
    requires IsRun(check, run) && i < |run| && run[i].threads != [] && run[i].threads[0].Returned?
    ensures run[i].threads[0].fRet <==> All(check, run[i].added)
    ensures run[i].q.nTodo == 0 && run[i].q.queue == []
  {
    RunKeeps(check, run, i);
    NobodyRuns(check, run[i]);
  }

  /** A sleeping master has a worker at work, whose return with the last checks wakes it. */
  lemma MasterIsWoken<T(!new)>(check: T -> bool, run: seq<System<T>>, i: nat) returns (t: nat)
    requires IsRun(check, run) && i < |run| && run[i].threads != [] && run[i].threads[0].Waiting?
    ensures 0 < t < |run[i].threads| && run[i].threads[t].Running? && run[i].q.queue == []
    ensures |run[i].threads[t].vChecks| <= run[i].q.nTodo
    ensures |run[i].threads[t].vChecks| == run[i].q.nTodo ==> WakesMaster(run[i].q, false, |run[i].threads[t].vChecks|)
  {
    RunKeeps(check, run, i);
    var s := run[i];
    t := SumPositive(s.threads, Load);
    PlacedSums(s, t, Outside);
  }

  // ---------------------------------------------------------------- Wait comes to an end

  function Weight<T>(t: Thread<T>): nat {
    match t
    case Outside => 2
    case Running(vChecks, _) => 1 + 2 * |vChecks|
    case Waiting => 0
    case Returned(_) => 0
    case _ => 1
  }

  /** An upper bound on the steps, spurious wakeups aside, until Wait returns. */
  function Rank<T>(s: System<T>): nat { 4 * |s.q.queue| + Sum(s.threads, Weight) }

  ghost predicate MasterWaits<T>(s: System<T>) {
    |s.threads| > 0 && (s.threads[0].Entering? || s.threads[0].Running? || s.threads[0].Waiting?
        || s.threads[0].Notified?)
  }

  /** A step of a thread that something made runnable. */
  ghost predicate ProperStep<T(!new)>(check: T -> bool, s: System<T>, s': System<T>, t: nat) {
    EnterStep(check, s, s', t) || (ResumeStep(s, s', t) && s.threads[t].Notified?) || StartStep(s, s', t)
  }

  lemma DecideRank<T>(s: System<T>, t: nat)
    requires t < |s.threads| && s.threads[t].Outside? && s.q.nTotal > 0
    ensures var (q', next) := Decide(s.q, t == 0);
            Rank(Placed(s, q', t, After(next))) <= Rank(s) - 2
                && (next.Work? ==> Rank(Placed(s, q', t, After(next))) < Rank(s) - 2)
  {
    SumUpdate(s.threads, Weight, t, After(Decide(s.q, t == 0).1));
  }

  lemma EnterDecreases<T(!new)>(check: T -> bool, s: System<T>, s': System<T>, t: nat)
    requires Inv(check, s) && EnterStep(check, s, s', t)
    ensures Rank(s') < Rank(s)
  {
    hide Decide, Inv, Rank, Settle, Signal;
    var (nNow, fOk) := match s.threads[t]
      case Running(vChecks, f) => (|vChecks|, f && All(check, vChecks))
      case _ => (0, true);
    var wake := WakesMaster(s.q, t == 0, nNow);
    var s1 := System(Settle(s.q, nNow, fOk), Signal(s.threads[t := Outside], wake), s.control, s.added);
    if s.threads[t].Running? {
      BatchNotEmpty(check, s, t);
    }
    SettledTotal(s.q, nNow, fOk);
    SettledRank(s, t, nNow, fOk, wake);
    SignalAround(s.threads, t, wake, Outside);
    var thread := After(Decide(s1.q, t == 0).1);
    SignalAround(s.threads, t, wake, thread);
    DecideRank(s1, t);
    assert s' == Placed(s1, Decide(s1.q, t == 0).0, t, thread);
  }

  lemma SignalAround<T>(threads: seq<Thread<T>>, t: nat, wake: bool, thread: Thread<T>)
    requires t < |threads| && (t == 0 ==> !wake)
    ensures |Signal(threads[t := Outside], wake)| == |threads| && Signal(threads[t := Outside], wake)[t].Outside?
    ensures Signal(threads[t := Outside], wake)[t := thread] == Signal(threads[t := thread], wake)
  {
    if t == 0 {
      assert threads[t := Outside][t := thread] == threads[t := thread];
    } else {
      assert threads[t := Outside][0] == threads[0] == threads[t := thread][0];
    }
  }

  /** Handing in a batch pays for the signal it may cause. */
  lemma SettledRank<T>(s: System<T>, t: nat, nNow: nat, fOk: bool, wake: bool)
    requires t < |s.threads| && (s.threads[t].Entering? || s.threads[t].Running?)
    requires nNow == Load(s.threads[t]) && (s.threads[t].Running? ==> nNow > 0) && (wake ==> nNow > 0)
    ensures Rank(System(Settle(s.q, nNow, fOk), Signal(s.threads[t := Outside], wake), s.control,
        s.added)) <= Rank(s) + 1
  {
    var left := s.threads[t := Outside];
    SumUpdate(s.threads, Weight, t, Outside);
    SumUpdate(left, Weight, 0, Notified);
  }

  lemma BatchNotEmpty<T>(check: T -> bool, s: System<T>, t: nat)
    requires Inv(check, s) && t < |s.threads| && s.threads[t].Running?
    ensures |s.threads[t].vChecks| > 0
  {
  }

  lemma ResumeDecreases<T>(s: System<T>, s': System<T>, t: nat)
    requires ResumeStep(s, s', t) && s.threads[t].Notified?
    ensures Rank(s') < Rank(s)
  {
    hide Decide;
    var s1 := System(s.q.(nIdle := s.q.nIdle - 1), s.threads[t := Outside], s.control, s.added);
    var thread := After(Decide(s1.q, t == 0).1);
    SumUpdate(s.threads, Weight, t, Outside);
    DecideRank(s1, t);
    assert s.threads[t := Outside][t := thread] == s.threads[t := thread];
    assert s' == Placed(s1, Decide(s1.q, t == 0).0, t, thread);
  }

  /** Every proper step lowers the rank. */
  lemma ProperStepsDecrease<T(!new)>(check: T -> bool, s: System<T>, s': System<T>, t: nat)
    requires Inv(check, s) && ProperStep(check, s, s', t)
    ensures Rank(s') < Rank(s)
  {
    hide Inv, EnterStep, ResumeStep;
    if EnterStep(check, s, s', t) {
      EnterDecreases(check, s, s', t);
    } else if StartStep(s, s', t) {
      SumUpdate(s.threads, Weight, t, Entering);
    } else {
      ResumeDecreases(s, s', t);
    }
  }

  /** While the master is in Wait some thread can take a proper step. */
  lemma WaitNeverStuck<T(!new)>(check: T -> bool, s: System<T>) returns (t: nat, s': System<T>)
    requires Inv(check, s) && MasterWaits(s)
    ensures ProperStep(check, s, s', t)
  {
    hide Decide, Settle, Sum;
    t := 0;
    if s.threads[0].Waiting? {
      t := SumPositive(s.threads, Load);
    }
    if s.threads[t].Notified? {
      ResumeHolds(check, s, t);
      var (q', next) := Decide(s.q.(nIdle := s.q.nIdle - 1), t == 0);
      s' := System(q', s.threads[t := After(next)], s.control, s.added);
    } else if s.threads[t].Running? {
      FinishHolds(check, s, t);
      var nNow, fOk := |s.threads[t].vChecks|, s.threads[t].fOk && All(check, s.threads[t].vChecks);
      SettledTotal(s.q, nNow, fOk);
      var (q', next) := Decide(Settle(s.q, nNow, fOk), t == 0);
      s' := System(q', Signal(s.threads[t := After(next)], WakesMaster(s.q, t == 0, nNow)), s.control, s.added);
    } else {
      SettledTotal(s.q, 0, true);
      var (q', next) := Decide(Settle(s.q, 0, true), t == 0);
      s' := System(q', Signal(s.threads[t := After(next)], WakesMaster(s.q, t == 0, 0)), s.control, s.added);
    }
  }

  lemma SettledTotal<T>(q: Shared<T>, nNow: nat, fOk: bool)
    requires nNow == 0 || q.nTotal > 0
    ensures Settle(q, nNow, fOk).nTotal > 0
  {
  }

  ghost predicate Moves<T(!new)>(check: T -> bool, s: System<T>, s': System<T>) { exists t ::
      ProperStep(check, s, s', t) }

  /** Threads that take only proper steps bring Wait to its end: there are no more of them than the rank. */
  lemma {:induction false} WaitEnds<T(!new)>(check: T -> bool, run: seq<System<T>>)
    requires run != [] && Inv(check, run[0])
    requires forall i | 0 < i < |run| :: Moves(check, run[i - 1], run[i])
    ensures |run| <= Rank(run[0]) + 1
    ensures Inv(check, run[|run| - 1]) && |run| - 1 + Rank(run[|run| - 1]) <= Rank(run[0])
  {
    hide Inv, ProperStep, Rank;
    if |run| > 1 {
      var k := |run| - 1;
      forall i | 0 < i < k ensures Moves(check, run[..k][i - 1], run[..k][i]) {
        assert Moves(check, run[i - 1], run[i]);
      }
      WaitEnds(check, run[..k]);
      assert Moves(check, run[k - 1], run[k]);
      var t :| ProperStep(check, run[k - 1], run[k], t);
      ProperStepsDecrease(check, run[k - 1], run[k], t);
      ProperIsStep(check, run[k - 1], run[k], t);
      StepKeeps(check, run[k - 1], run[k]);
    }
  }

  lemma ProperIsStep<T(!new)>(check: T -> bool, s: System<T>, s': System<T>, t: nat)
    requires ProperStep(check, s, s', t)
    ensures Step(check, s, s')
  {
    hide EnterStep, ResumeStep, StartStep;
  }
}
