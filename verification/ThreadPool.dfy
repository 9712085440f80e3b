/** The worker pool as a transition system.  Each critical section under `queue_mutex` is
    one event; a condition variable is the set of threads asleep on it, and the moment
    between releasing the mutex and notifying is visible to the other threads. */
module ThreadPool {

  type Task = nat

  /** About to lock and test the predicate, asleep on `condition`, executing, done and
      about to lock for the decrement, or returned. */
  datatype Worker = AtTop | Asleep | Running(task: Task) | Finishing(task: Task) | Exited

  /** A call of wait_all, with the number of tasks submitted when it began. */
  datatype Waiter = Checking(before: nat) | Waiting(before: nat) | Released(before: nat)

  /** Tasks are numbered in the order of submission.  `notices` counts submitters that have
      unlocked and not yet notified; `stopNotice` is the destructor in the same position.
      `started` and `finished` are history. */
  datatype Pool = Pool(
    tasks: seq<Task>, active: int, stop: bool, workers: seq<Worker>, waiters: seq<Waiter>,
    notices: nat, stopNotice: bool, submitted: nat, started: seq<Task>, finished: set<Task>)

  function Create(threads: nat): Pool {
    Pool([], 0, false, seq(if threads == 0 then 2 else threads, _ => AtTop), [], 0, false, 0, [], {})
  }

  datatype Event =
    | Submit                 // lines 102-104
    | NotifyOne(w: nat)      // line 107
    | Look(w: nat)           // lines 61-75
    | Return(w: nat)         // line 79
    | Finish(w: nat)         // lines 85-88
    | Spurious(w: nat)       // a wakeup nobody asked for
    | WaitAll                // a call of wait_all
    | Check(i: nat)          // lines 122-125
    | SpuriousWaiter(i: nat)
    | Destroy                // lines 139-140
    | NotifyStop             // line 142

  predicate SomeAsleep(ws: seq<Worker>) {
    exists w :: 0 <= w < |ws| && ws[w].Asleep?
  }

  predicate Enabled(p: Pool, e: Event) {
    match e
    case Submit => !p.stop
    case NotifyOne(w) => p.notices > 0 && ((w < |p.workers| && p.workers[w].Asleep?) || !SomeAsleep(p.workers))
    case Look(w) => w < |p.workers| && p.workers[w].AtTop?
    case Return(w) => w < |p.workers| && p.workers[w].Running?
    case Finish(w) => w < |p.workers| && p.workers[w].Finishing?
    case Spurious(w) => w < |p.workers| && p.workers[w].Asleep?
    case WaitAll => true
    case Check(i) => i < |p.waiters| && p.waiters[i].Checking?
    case SpuriousWaiter(i) => i < |p.waiters| && p.waiters[i].Waiting?
    case Destroy => !p.stop
    case NotifyStop => p.stopNotice
  }

  function Set(p: Pool, w: nat, v: Worker): Pool
    requires w < |p.workers|
  {
    p.(workers := p.workers[w := v])
  }

  function WakeWorkers(ws: seq<Worker>): seq<Worker> {
    seq(|ws|, w requires 0 <= w < |ws| => if ws[w].Asleep? then AtTop else ws[w])
  }

  function WakeWaiters(ws: seq<Waiter>): seq<Waiter> {
    seq(|ws|, i requires 0 <= i < |ws| => if ws[i].Waiting? then Checking(ws[i].before) else ws[i])
  }

  /** A worker tests its predicate under the lock and sleeps, leaves, or pops a task. */
  function LookNext(p: Pool, w: nat): Pool
    requires Enabled(p, Look(w))
  {
    if !p.stop && p.tasks == [] then Set(p, w, Asleep)
    else if p.tasks == [] then Set(p, w, Exited)
    else Set(p, w, Running(p.tasks[0])).(tasks := p.tasks[1..], started := p.started + [p.tasks[0]])
  }

  function Next(p: Pool, e: Event): Pool
    requires Enabled(p, e)
  {
    match e
    case Submit =>
      p.(tasks := p.tasks + [p.submitted], active := p.active + 1, notices := p.notices + 1,
         submitted := p.submitted + 1)
    case NotifyOne(w) =>
      var q := p.(notices := p.notices - 1);
      if SomeAsleep(p.workers) then Set(q, w, AtTop) else q
    case Look(w) => LookNext(p, w)
    case Return(w) =>
      Set(p, w, Finishing(p.workers[w].task)).(finished := p.finished + {p.workers[w].task})
    case Finish(w) =>
      var q := Set(p, w, AtTop).(active := p.active - 1);
      if q.active == 0 then q.(waiters := WakeWaiters(p.waiters)) else q
    case Spurious(w) => Set(p, w, AtTop)
    case WaitAll => p.(waiters := p.waiters + [Checking(p.submitted)])
    case Check(i) =>
      var b := p.waiters[i].before;
      p.(waiters := p.waiters[i := if p.active == 0 && p.tasks == [] then Released(b) else Waiting(b)])
    case SpuriousWaiter(i) => p.(waiters := p.waiters[i := Checking(p.waiters[i].before)])
    case Destroy => p.(stop := true, stopNotice := true)
    case NotifyStop => p.(stopNotice := false, workers := WakeWorkers(p.workers))
  }

  /** One event; an event that is not enabled does nothing. */
  function Step(p: Pool, e: Event): Pool {
    if Enabled(p, e) then Next(p, e) else p
  }

  ghost function Run(threads: nat, events: seq<Event>): Pool {
    if events == [] then Create(threads) else
    Step(Run(threads, events[..|events| - 1]), events[|events| - 1])
  }

  // ------------------------------------------------------- counting over workers

  ghost function Weigh(ws: seq<Worker>, f: Worker -> nat): nat {
    if ws == [] then 0 else Weigh(ws[..|ws| - 1], f) + f(ws[|ws| - 1])
  }

  lemma {:induction false} WeighUpdate(ws: seq<Worker>, f: Worker -> nat, w: nat, v: Worker)
    requires w < |ws|
    ensures Weigh(ws[w := v], f) == Weigh(ws, f) - f(ws[w]) + f(v)
    ensures f(ws[w]) <= Weigh(ws, f)
    decreases |ws|
  {
    var n := |ws| - 1;
    if w == n {
      assert ws[w := v][..n] == ws[..n];
    } else {
      assert ws[w := v][..n] == ws[..n][w := v];
      WeighUpdate(ws[..n], f, w, v);
    }
  }

  lemma {:induction false} WeighWake(ws: seq<Worker>, f: Worker -> nat)
    requires f(AtTop) <= f(Asleep)
    ensures Weigh(WakeWorkers(ws), f) <= Weigh(ws, f)
    ensures f(AtTop) == f(Asleep) ==> Weigh(WakeWorkers(ws), f) == Weigh(ws, f)
    decreases |ws|
  {
    if ws != [] {
      var n := |ws| - 1;
      assert WakeWorkers(ws)[..n] == WakeWorkers(ws[..n]);
      WeighWake(ws[..n], f);
    }
  }

  lemma {:induction false} WeighZero(ws: seq<Worker>, f: Worker -> nat)
    requires forall w :: 0 <= w < |ws| ==> f(ws[w]) == 0
    ensures Weigh(ws, f) == 0
    decreases |ws|
  {
    if ws != [] {
      WeighZero(ws[..|ws| - 1], f);
    }
  }

  function BusyWeight(w: Worker): nat {
    if w.Running? || w.Finishing? then 1 else 0
  }

  /** Workers that hold a task. */
  ghost function Busy(ws: seq<Worker>): nat {
    Weigh(ws, BusyWeight)
  }

  // ----------------------------------------------------------- the invariant

  predicate Awake(w: Worker) {
    w.AtTop? || w.Running? || w.Finishing?
  }

  ghost predicate SomeAwake(ws: seq<Worker>) {
    exists w :: 0 <= w < |ws| && Awake(ws[w])
  }

  /** `active_tasks` is the queued tasks plus those in a worker's hands. */
  ghost predicate Counted(p: Pool) {
    p.active == |p.tasks| + Busy(p.workers)
  }

  /** Tasks start in the order of submission, each once; a started task is being run by
      one worker or has finished. */
  ghost predicate StartedInOrder(p: Pool) {
    && |p.started| + |p.tasks| == p.submitted
    && (forall k :: 0 <= k < |p.started| ==> p.started[k] == k)
    && (forall k :: 0 <= k < |p.tasks| ==> p.tasks[k] == |p.started| + k)
    && (forall t :: t in p.finished ==> t < |p.started|)
    && (forall w :: 0 <= w < |p.workers| && p.workers[w].Running? ==>
          p.workers[w].task < |p.started| && p.workers[w].task !in p.finished)
    && (forall w :: 0 <= w < |p.workers| && p.workers[w].Finishing? ==> p.workers[w].task in p.finished)
    && (forall v, w :: 0 <= v < w < |p.workers| && p.workers[v].Running? && p.workers[w].Running? ==>
          p.workers[v].task != p.workers[w].task)
    && (forall t :: 0 <= t < |p.started| && t !in p.finished ==> RunBySome(p.workers, t))
  }

  ghost predicate RunBySome(ws: seq<Worker>, t: Task) {
    exists w :: 0 <= w < |ws| && ws[w] == Running(t)
  }

  ghost predicate AllFinished(p: Pool, before: nat) {
    forall t :: 0 <= t < before ==> t in p.finished
  }

  ghost predicate WaitersSound(p: Pool) {
    forall i :: 0 <= i < |p.waiters| ==>
      && p.waiters[i].before <= p.submitted
      && (p.waiters[i].Waiting? ==> p.active > 0)
      && (p.waiters[i].Released? ==> AllFinished(p, p.waiters[i].before))
  }

  /** No wakeup is lost: a queued task has an awake worker or a notification on its way,
      and after stop a sleeper has the destructor's notification on its way. */
  ghost predicate NoLostWakeup(p: Pool) {
    && |p.workers| > 0
    && (p.tasks != [] ==> p.notices > 0 || SomeAwake(p.workers))
    && (forall w :: 0 <= w < |p.workers| && p.workers[w].Exited? ==> p.stop && p.tasks == [])
    && (p.stop && SomeAsleep(p.workers) ==> p.stopNotice)
  }

  ghost predicate Inv(p: Pool) {
    Counted(p) && StartedInOrder(p) && WaitersSound(p) && NoLostWakeup(p)
  }

  // ------------------------------------------------ each event keeps the invariant

  /** A worker moves between states that hold no task. */
  lemma IdleMoveKeeps(p: Pool, w: nat, v: Worker)
    requires Inv(p) && w < |p.workers|
    requires (p.workers[w].AtTop? || p.workers[w].Asleep?) && (v.AtTop? || v.Asleep? || v.Exited?)
    requires v.Asleep? ==> !p.stop && p.tasks == []
    requires v.Exited? ==> p.stop && p.tasks == []
    ensures Inv(Set(p, w, v))
  {
    var q := Set(p, w, v);
    WeighUpdate(p.workers, BusyWeight, w, v);
    forall t | 0 <= t < |q.started| && t !in q.finished ensures RunBySome(q.workers, t) {
      var x :| 0 <= x < |p.workers| && p.workers[x] == Running(t);
      assert q.workers[x] == Running(t);
    }
    if q.tasks != [] {
      assert Awake(q.workers[w]);
    }
    if SomeAsleep(q.workers) {
      var x :| 0 <= x < |q.workers| && q.workers[x].Asleep?;
      assert x != w ==> p.workers[x].Asleep?;
    }
  }

  lemma NotifyKeeps(p: Pool, w: nat)
    requires Inv(p) && Enabled(p, NotifyOne(w))
    ensures Inv(Next(p, NotifyOne(w)))
  {
    if SomeAsleep(p.workers) {
      IdleMoveKeeps(p, w, AtTop);
      assert Awake(Next(p, NotifyOne(w)).workers[w]);
    } else if p.tasks != [] {
      assert Awake(p.workers[0]);
    }
  }

  lemma PopKeepsOrder(p: Pool, w: nat)
    requires StartedInOrder(p) && Enabled(p, Look(w)) && p.tasks != []
    ensures StartedInOrder(LookNext(p, w))
  {
    var q := LookNext(p, w);
    forall t | 0 <= t < |q.started| && t !in q.finished ensures RunBySome(q.workers, t) {
      if t == p.tasks[0] {
        assert q.workers[w] == Running(t);
      } else {
        var x :| 0 <= x < |p.workers| && p.workers[x] == Running(t);
        assert q.workers[x] == Running(t);
      }
    }
  }

  /** The wakeup condition after a worker that holds or takes a task has moved. */
  lemma AwakeMoveKeeps(p: Pool, q: Pool, w: nat)
    requires NoLostWakeup(p) && w < |p.workers| == |q.workers|
    requires q.workers == p.workers[w := q.workers[w]] && Awake(q.workers[w])
    requires Awake(p.workers[w])
    requires q.stop == p.stop && q.stopNotice == p.stopNotice && (p.tasks == [] ==> q.tasks == [])
    ensures NoLostWakeup(q)
  {
    if SomeAsleep(q.workers) {
      var x :| 0 <= x < |q.workers| && q.workers[x].Asleep?;
      assert p.workers[x].Asleep?;
    }
  }

  lemma PopKeeps(p: Pool, w: nat)
    requires Inv(p) && Enabled(p, Look(w)) && p.tasks != []
    ensures Inv(LookNext(p, w))
  {
    WeighUpdate(p.workers, BusyWeight, w, Running(p.tasks[0]));
    PopKeepsOrder(p, w);
    AwakeMoveKeeps(p, LookNext(p, w), w);
  }

  lemma ReturnKeepsOrder(p: Pool, w: nat)
    requires StartedInOrder(p) && Enabled(p, Return(w))
    ensures StartedInOrder(Next(p, Return(w)))
  {
    var q := Next(p, Return(w));
    forall t | 0 <= t < |q.started| && t !in q.finished ensures RunBySome(q.workers, t) {
      var x :| 0 <= x < |p.workers| && p.workers[x] == Running(t);
      assert q.workers[x] == Running(t);
    }
  }

  lemma ReturnKeeps(p: Pool, w: nat)
    requires Inv(p) && Enabled(p, Return(w))
    ensures Inv(Next(p, Return(w)))
  {
    WeighUpdate(p.workers, BusyWeight, w, Finishing(p.workers[w].task));
    ReturnKeepsOrder(p, w);
    AwakeMoveKeeps(p, Next(p, Return(w)), w);
  }

  lemma FinishKeepsOrder(p: Pool, w: nat)
    requires StartedInOrder(p) && Enabled(p, Finish(w))
    ensures StartedInOrder(Next(p, Finish(w)))
  {
    var q := Next(p, Finish(w));
    assert q.workers == p.workers[w := AtTop];
    forall t | 0 <= t < |q.started| && t !in q.finished ensures RunBySome(q.workers, t) {
      var x :| 0 <= x < |p.workers| && p.workers[x] == Running(t);
      assert q.workers[x] == Running(t);
    }
  }

  lemma FinishKeepsWaiters(p: Pool, w: nat)
    requires Counted(p) && WaitersSound(p) && Enabled(p, Finish(w))
    ensures Counted(Next(p, Finish(w))) && WaitersSound(Next(p, Finish(w)))
  {
    WeighUpdate(p.workers, BusyWeight, w, AtTop);
  }

  lemma FinishKeeps(p: Pool, w: nat)
    requires Inv(p) && Enabled(p, Finish(w))
    ensures Inv(Next(p, Finish(w)))
  {
    FinishKeepsOrder(p, w);
    FinishKeepsWaiters(p, w);
    AwakeMoveKeeps(p, Next(p, Finish(w)), w);
  }

  /** At zero every submitted task has finished. */
  lemma ZeroMeansFinished(p: Pool)
    requires Counted(p) && StartedInOrder(p) && p.active == 0
    ensures AllFinished(p, p.submitted) && p.tasks == []
  {
    forall t | 0 <= t < p.submitted ensures t in p.finished {
      if t !in p.finished {
        var x :| 0 <= x < |p.workers| && p.workers[x] == Running(t);
        WeighUpdate(p.workers, BusyWeight, x, AtTop);
      }
    }
  }

  lemma CheckKeeps(p: Pool, i: nat)
    requires Inv(p) && Enabled(p, Check(i))
    ensures Inv(Next(p, Check(i)))
  {
    if p.active == 0 {
      ZeroMeansFinished(p);
    }
  }

  lemma NotifyStopKeepsOrder(p: Pool)
    requires StartedInOrder(p) && p.stopNotice
    ensures StartedInOrder(Next(p, NotifyStop))
  {
    var q := Next(p, NotifyStop);
    assert forall w :: 0 <= w < |p.workers| && !p.workers[w].Asleep? ==> q.workers[w] == p.workers[w];
    forall t | 0 <= t < |q.started| && t !in q.finished ensures RunBySome(q.workers, t) {
      var x :| 0 <= x < |p.workers| && p.workers[x] == Running(t);
      assert q.workers[x] == Running(t);
    }
  }

  lemma NotifyStopKeeps(p: Pool)
    requires Inv(p) && p.stopNotice
    ensures Inv(Next(p, NotifyStop))
  {
    var q := Next(p, NotifyStop);
    WeighWake(p.workers, BusyWeight);
    NotifyStopKeepsOrder(p);
    if SomeAwake(p.workers) {
      var x :| 0 <= x < |p.workers| && Awake(p.workers[x]);
      assert Awake(q.workers[x]);
    }
  }

  lemma SubmitKeeps(p: Pool)
    requires Inv(p) && !p.stop
    ensures Inv(Next(p, Submit))
  {
  }

  lemma CallerKeeps(p: Pool, e: Event)
    requires Inv(p) && Enabled(p, e) && (e.WaitAll? || e.SpuriousWaiter? || e.Destroy?)
    ensures Inv(Next(p, e))
  {
  }

  lemma StepKeepsInv(p: Pool, e: Event)
    requires Inv(p)
    ensures Inv(Step(p, e))
  {
    if Enabled(p, e) {
      match e
      case Submit => SubmitKeeps(p);
      case NotifyOne(w) => NotifyKeeps(p, w);
      case Look(w) =>
        if p.tasks != [] { PopKeeps(p, w); } else { IdleMoveKeeps(p, w, if p.stop then Exited else Asleep); }
      case Return(w) => ReturnKeeps(p, w);
      case Finish(w) => FinishKeeps(p, w);
      case Spurious(w) => IdleMoveKeeps(p, w, AtTop);
      case Check(i) => CheckKeeps(p, i);
      case NotifyStop => NotifyStopKeeps(p);
      case _ => CallerKeeps(p, e);
    }
  }

  lemma {:induction false} RunKeepsInv(threads: nat, events: seq<Event>)
    ensures Inv(Run(threads, events))
    decreases |events|
  {
    if events == [] {
      WeighZero(Create(threads).workers, BusyWeight);
    } else {
      RunKeepsInv(threads, events[..|events| - 1]);
      StepKeepsInv(Run(threads, events[..|events| - 1]), events[|events| - 1]);
    }
  }

  // ------------------------------------------------------------ the theorems

  /** In every interleaving the counter equals queued plus running tasks and never drops
      below zero; tasks start in submission order, each once. */
  lemma CounterIsExact(threads: nat, events: seq<Event>)
    ensures var p := Run(threads, events);
            && p.active == |p.tasks| + Busy(p.workers) >= 0
            && |p.started| + |p.tasks| == p.submitted == Submits(events)
            && forall k :: 0 <= k < |p.started| ==> p.started[k] == k
  {
    RunKeepsInv(threads, events);
    SubmittedIsCounted(threads, events);
  }

  /** How many tasks were submitted before the pool's destruction began. */
  ghost function Submits(events: seq<Event>): nat {
    if events == [] then 0 else
    var n := |events| - 1;
    Submits(events[..n]) + if events[n].Submit? && Destroy !in events[..n] then 1 else 0
  }

  /** The pool stops exactly when it is destroyed, and accepts every submission before. */
  lemma {:induction false} SubmittedIsCounted(threads: nat, events: seq<Event>)
    ensures Run(threads, events).submitted == Submits(events)
    ensures Run(threads, events).stop <==> Destroy in events
    decreases |events|
  {
    if events != [] {
      var front, e := events[..|events| - 1], events[|events| - 1];
      SubmittedIsCounted(threads, front);
      StepSubmits(Run(threads, front), e);
      assert events == front + [e];
    }
  }

  lemma StepSubmits(p: Pool, e: Event)
    ensures Step(p, e).submitted == p.submitted + if e.Submit? && !p.stop then 1 else 0
    ensures Step(p, e).stop <==> p.stop || e.Destroy?
    ensures |Step(p, e).workers| == |p.workers|
  {
  }

  /** The pool keeps the number of workers it was created with: as many as asked for, or two. */
  lemma {:induction false} WorkersAreConstant(threads: nat, events: seq<Event>)
    ensures |Run(threads, events).workers| == if threads == 0 then 2 else threads
    decreases |events|
  {
    if events != [] {
      WorkersAreConstant(threads, events[..|events| - 1]);
      StepSubmits(Run(threads, events[..|events| - 1]), events[|events| - 1]);
    }
  }

  /** The i-th waiter is the same call all along. */
  lemma StepKeepsCall(p: Pool, e: Event, i: nat)
    requires i < |p.waiters|
    ensures i < |Step(p, e).waiters| && Step(p, e).waiters[i].before == p.waiters[i].before
  {
  }

  lemma {:induction false} CallIsKept(threads: nat, events: seq<Event>, later: seq<Event>, i: nat)
    requires i < |Run(threads, events).waiters|
    ensures i < |Run(threads, events + later).waiters|
    ensures Run(threads, events + later).waiters[i].before == Run(threads, events).waiters[i].before
    decreases |later|
  {
    if later == [] {
      assert events + later == events;
    } else {
      var n := |later| - 1;
      CallIsKept(threads, events, later[..n], i);
      RunMore(threads, events, later);
      StepKeepsCall(Run(threads, events + later[..n]), later[n], i);
    }
  }

  /** wait_all is a barrier: a call made at any moment of a run returns, whatever follows, only
      when every task submitted before the call has finished; and no caller sleeps in it while
      the counter is zero. */
  lemma WaitAllIsABarrier(threads: nat, events: seq<Event>, later: seq<Event>)
    ensures var i := |Run(threads, events).waiters|;
            var p := Run(threads, events + [WaitAll] + later);
            && i < |p.waiters|
            && (p.waiters[i].Released? ==> AllFinished(p, Submits(events)))
            && (p.waiters[i].Waiting? ==> p.active > 0)
  {
    var call := events + [WaitAll];
    assert call[..|call| - 1] == events;
    SubmittedIsCounted(threads, events);
    CallIsKept(threads, call, later, |Run(threads, events).waiters|);
    RunKeepsInv(threads, call + later);
  }

  /** At zero every caller of wait_all has returned or returns at its next look. */
  lemma WaitersLeaveAtZero(threads: nat, events: seq<Event>, i: nat)
    requires i < |Run(threads, events).waiters| && Run(threads, events).active == 0
    ensures var p := Run(threads, events);
            p.waiters[i].Released? || Step(p, Check(i)).waiters[i].Released?
  {
    RunKeepsInv(threads, events);
    ZeroMeansFinished(Run(threads, events));
  }

  /** A queued task never coexists with every worker asleep and no notification coming. */
  lemma QueuedTasksAreServed(threads: nat, events: seq<Event>)
    requires Run(threads, events).tasks != []
    ensures var p := Run(threads, events); p.notices > 0 || SomeAwake(p.workers)
  {
    RunKeepsInv(threads, events);
  }

  /** Destruction: once every worker has been joined, every submitted task was started
      exactly once, in order, and has finished. */
  lemma DestructorRunsEverything(threads: nat, events: seq<Event>)
    requires forall w :: 0 <= w < |Run(threads, events).workers| ==> Run(threads, events).workers[w].Exited?
    ensures var p := Run(threads, events);
            && p.tasks == [] && p.active == 0
            && |p.started| == p.submitted && (forall k :: 0 <= k < |p.started| ==> p.started[k] == k)
            && AllFinished(p, p.submitted)
  {
    RunKeepsInv(threads, events);
    var p := Run(threads, events);
    assert p.workers[0].Exited?;
    WeighZero(p.workers, BusyWeight);
    ZeroMeansFinished(p);
  }

  function RankWeight(w: Worker): nat {
    match w
    case Exited => 0
    case AtTop => 1
    case Asleep => 2
    case Finishing(_) => 2
    case Running(_) => 3
  }

  /** An upper bound on the worker and notification events that can follow stop. */
  ghost function Remaining(p: Pool): nat {
    3 * |p.tasks| + Weigh(p.workers, RankWeight) + p.notices + if p.stopNotice then 1 else 0
  }

  ghost predicate PoolEvent(e: Event) {
    e.NotifyOne? || e.Look? || e.Return? || e.Finish? || e.Spurious? || e.NotifyStop?
  }

  /** After stop, every event of a worker or a notifier strictly lowers the bound. */
  lemma StopCountsDown(p: Pool, e: Event)
    requires Inv(p) && p.stop && PoolEvent(e) && Enabled(p, e)
    ensures Remaining(Next(p, e)) < Remaining(p)
  {
    match e
    case NotifyOne(w) => if SomeAsleep(p.workers) { WeighUpdate(p.workers, RankWeight, w, AtTop); }
    case Look(w) => WeighUpdate(p.workers, RankWeight, w, LookNext(p, w).workers[w]);
    case Return(w) => WeighUpdate(p.workers, RankWeight, w, Finishing(p.workers[w].task));
    case Finish(w) => WeighUpdate(p.workers, RankWeight, w, AtTop);
    case Spurious(w) => WeighUpdate(p.workers, RankWeight, w, AtTop);
    case NotifyStop => WeighWake(p.workers, RankWeight);
  }

  /** Events the pool can rely on: not the spurious wakeups. */
  ghost predicate Dependable(e: Event) {
    PoolEvent(e) && !e.Spurious?
  }

  lemma AwakeCanAct(p: Pool, w: nat)
    requires w < |p.workers| && Awake(p.workers[w])
    ensures exists e :: Dependable(e) && Enabled(p, e)
  {
    match p.workers[w]
    case AtTop => assert Enabled(p, Look(w)) && Dependable(Look(w));
    case Running(_) => assert Enabled(p, Return(w)) && Dependable(Return(w));
    case Finishing(_) => assert Enabled(p, Finish(w)) && Dependable(Finish(w));
  }

  lemma {:induction false} BusyWorkerExists(ws: seq<Worker>) returns (w: nat)
    requires Busy(ws) > 0
    ensures w < |ws| && Awake(ws[w])
    decreases |ws|
  {
    var n := |ws| - 1;
    if Awake(ws[n]) {
      w := n;
    } else {
      w := BusyWorkerExists(ws[..n]);
    }
  }

  /** While a task is queued or running the pool can act without a spurious wakeup, so a
      caller of wait_all is never waiting on a dead pool. */
  lemma ActivePoolCanAct(threads: nat, events: seq<Event>)
    requires Run(threads, events).active > 0
    ensures exists e :: Dependable(e) && Enabled(Run(threads, events), e)
  {
    RunKeepsInv(threads, events);
    var p := Run(threads, events);
    if SomeAwake(p.workers) {
      var w :| 0 <= w < |p.workers| && Awake(p.workers[w]);
      AwakeCanAct(p, w);
    } else if p.tasks != [] {
      var w := if SomeAsleep(p.workers) then var x :| 0 <= x < |p.workers| && p.workers[x].Asleep?; x else 0;
      assert Enabled(p, NotifyOne(w)) && Dependable(NotifyOne(w));
    } else {
      var w := BusyWorkerExists(p.workers);
      AwakeCanAct(p, w);
    }
  }

  /** How many worker and notification events a run has made. */
  ghost function PoolMoves(threads: nat, events: seq<Event>): nat {
    if events == [] then 0 else
    var n := |events| - 1;
    PoolMoves(threads, events[..n]) +
    if PoolEvent(events[n]) && Enabled(Run(threads, events[..n]), events[n]) then 1 else 0
  }

  /** After stop no event raises the bound, and those of a worker or notifier lower it. */
  lemma StopStepBudget(p: Pool, e: Event)
    requires Inv(p) && p.stop
    ensures Step(p, e).stop
    ensures Remaining(Step(p, e)) + (if PoolEvent(e) && Enabled(p, e) then 1 else 0) <= Remaining(p)
  {
    if PoolEvent(e) && Enabled(p, e) {
      StopCountsDown(p, e);
    }
  }

  lemma RunMore(threads: nat, events: seq<Event>, later: seq<Event>)
    requires later != []
    ensures var n := |later| - 1;
            var before := events + later[..n];
            && Run(threads, events + later) == Step(Run(threads, before), later[n])
            && PoolMoves(threads, events + later) == PoolMoves(threads, before) +
               if PoolEvent(later[n]) && Enabled(Run(threads, before), later[n]) then 1 else 0
  {
    var all := events + later;
    assert all[..|all| - 1] == events + later[..|later| - 1];
  }

  /** Over any run after stop, whatever callers of wait_all do in between, worker and
      notification events use up the bound. */
  lemma {:induction false} StopBudget(threads: nat, events: seq<Event>, later: seq<Event>)
    requires Run(threads, events).stop
    ensures var q := Run(threads, events + later);
            && q.stop
            && PoolMoves(threads, events + later) + Remaining(q)
               <= PoolMoves(threads, events) + Remaining(Run(threads, events))
    decreases |later|
  {
    if later == [] {
      assert events + later == events;
    } else {
      var n := |later| - 1;
      StopBudget(threads, events, later[..n]);
      RunMore(threads, events, later);
      RunKeepsInv(threads, events + later[..n]);
      StopStepBudget(Run(threads, events + later[..n]), later[n]);
    }
  }

  /** So the destructor returns under every schedule: in any run after stop the workers and
      notifiers make at most `Remaining` moves, and until all workers have exited some of
      them can move. */
  lemma DestructorTerminates(threads: nat, events: seq<Event>, later: seq<Event>)
    requires Run(threads, events).stop
    ensures var q := Run(threads, events + later);
            && PoolMoves(threads, events + later) - PoolMoves(threads, events) <= Remaining(Run(threads, events))
            && ((forall w :: 0 <= w < |q.workers| ==> q.workers[w].Exited?) ||
                exists e :: Dependable(e) && Enabled(q, e))
  {
    StopBudget(threads, events, later);
    RunKeepsInv(threads, events + later);
    StopProgress(Run(threads, events + later));
  }

  lemma StopProgress(p: Pool)
    requires Inv(p) && p.stop
    ensures (forall w :: 0 <= w < |p.workers| ==> p.workers[w].Exited?) || exists e :: Dependable(e) && Enabled(p, e)
  {
    if w :| 0 <= w < |p.workers| && !p.workers[w].Exited? {
      if Awake(p.workers[w]) {
        AwakeCanAct(p, w);
      } else {
        assert SomeAsleep(p.workers);
        assert Enabled(p, NotifyStop) && Dependable(NotifyStop);
      }
    }
  }
}
