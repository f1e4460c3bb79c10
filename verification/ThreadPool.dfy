/**
 The thread pool: workers, submitters and one main thread that starts and stops the pool, interleaved
 at every lock, unlock, wait, signal and broadcast, with spurious wakeups.
 */
module ThreadPools {
  import opened Options

  /** A task is known by its address. */
  type Task = nat

  const UNSET := -1
  const STARTED := 0
  const STOPPED := 1

  /** Where a worker is in `execute_thread`; it owns the mutex while Checking, Holding or Leaving. */
  datatype Worker =
    | Unborn | Locking | Checking | Parked | Woken | Holding(task: Task) | Running(task: Task) | Leaving | Exited
  {
    predicate Owns() {
      Checking? || Holding? || Leaving?
    }

    /** On the way to a look at the queue. */
    predicate Heads() {
      Locking? || Woken? || Checking?
    }
  }

  /** Where a thread is in `add_task`; it owns the mutex while Entered, Pushed or Returning. */
  datatype Submitter = Idle | Asking(task: Task) | Entered(task: Task) | Pushed | Returning(ret: int) {
    predicate Owns() {
      Entered? || Pushed? || Returning?
    }
  }

  /** Where the main thread is in `start_threadpool` and `destroy_threadpool`. */
  datatype Main =
    | Before | Creating(next: nat) | Serving
    | AskingStop | Stopping | FlagSet | Broadcasted | Joining(next: nat) | Destroyed
  {
    predicate Owns() {
      Stopping? || FlagSet? || Broadcasted?
    }

    /** The stop flag has been set. */
    predicate Stopped() {
      FlagSet? || Broadcasted? || Joining? || Destroyed?
    }
  }

  datatype Owner = Nobody | ByWorker(i: nat) | BySubmitter(j: nat) | ByMain

  /**
   The pool and its threads. `accepted`, `started` and `finished` are the history of the tasks that
   `add_task` took, that workers took off the queue, and that have run.
   */
  datatype Pool = Pool(
    limit: int, workers: seq<Worker>, submitters: seq<Submitter>, main: Main, owner: Owner,
    tasks: seq<Task>, state: int, accepted: seq<Task>, started: seq<Task>, finished: multiset<Task>)

  datatype Action =
    // start_threadpool
    | Begin | Create | Started
    // add_task
    | Submit(j: nat, task: Task) | Enter(j: nat) | Push(j: nat) | Signal(j: nat, woken: Option<nat>) | Return(j: nat)
    // execute_thread
    | Lock(i: nat) | Check(i: nat) | Unlock(i: nat) | Finish(i: nat) | WakeSpuriously(i: nat)
    // destroy_threadpool
    | Stop | LockToStop | SetFlag | Broadcast | UnlockToJoin | Join

  function Start(limit: int, size: nat, submitters: nat): Pool {
    Pool(limit, seq(size, _ => Unborn), seq(submitters, _ => Idle), Before, Nobody, [], UNSET, [], [], multiset{})
  }

  function SetWorker(p: Pool, i: nat, w: Worker): Pool
    requires i < |p.workers|
  {
    p.(workers := p.workers[i := w])
  }

  function SetSubmitter(p: Pool, j: nat, s: Submitter): Pool
    requires j < |p.submitters|
  {
    p.(submitters := p.submitters[j := s])
  }

  /** Whether a limit is set and the queue has grown beyond it. */
  predicate Full(p: Pool) {
    p.limit > 0 && |p.tasks| > p.limit
  }

  ghost predicate AnyParked(ws: seq<Worker>) {
    exists w <- ws :: w.Parked?
  }

  /** `pthread_cond_signal` unparks a worker if there is one. */
  ghost predicate MayWake(p: Pool, woken: Option<nat>) {
    match woken
    case None => !AnyParked(p.workers)
    case Some(i) => i < |p.workers| && p.workers[i].Parked?
  }

  function Unpark(w: Worker): Worker {
    if w.Parked? then Woken else w
  }

  function UnparkAll(ws: seq<Worker>): (r: seq<Worker>)
    ensures |r| == |ws| && forall i | 0 <= i < |ws| :: r[i] == Unpark(ws[i])
  {
    seq(|ws|, i requires 0 <= i < |ws| => Unpark(ws[i]))
  }

  ghost predicate Enabled(p: Pool, a: Action) {
    match a
    case Begin => p.main.Before? && p.workers != []
    case Create => p.main.Creating? && p.main.next < |p.workers|
    case Started => p.main.Creating? && p.main.next == |p.workers|
    case Submit(j, _) => j < |p.submitters| && p.submitters[j].Idle?
    case Enter(j) => j < |p.submitters| && p.submitters[j].Asking? && p.owner.Nobody?
    case Push(j) => j < |p.submitters| && p.submitters[j].Entered?
    case Signal(j, woken) => j < |p.submitters| && p.submitters[j].Pushed? && MayWake(p, woken)
    case Return(j) => j < |p.submitters| && p.submitters[j].Returning?
    case Lock(i) => i < |p.workers| && (p.workers[i].Locking? || p.workers[i].Woken?) && p.owner.Nobody?
    case Check(i) => i < |p.workers| && p.workers[i].Checking?
    case Unlock(i) => i < |p.workers| && (p.workers[i].Holding? || p.workers[i].Leaving?)
    case Finish(i) => i < |p.workers| && p.workers[i].Running?
    case WakeSpuriously(i) => i < |p.workers| && p.workers[i].Parked?
    case Stop => p.main.Serving?
    case LockToStop => p.main.AskingStop? && p.owner.Nobody?
    case SetFlag => p.main.Stopping?
    case Broadcast => p.main.FlagSet?
    case UnlockToJoin => p.main.Broadcasted?
    case Join => p.main.Joining? && (p.main.next < |p.workers| ==> p.workers[p.main.next].Exited?)
  }

  /** `while (_pool_state != STOPPED && _tasks.empty()) wait`, and what comes after it. */
  function Checked(p: Pool, i: nat): Pool
    requires i < |p.workers|
  {
    if p.state == STOPPED then SetWorker(p, i, Leaving)
    else if p.tasks == [] then SetWorker(p, i, Parked).(owner := Nobody)
    else SetWorker(p, i, Holding(p.tasks[0])).(tasks := p.tasks[1..], started := p.started + [p.tasks[0]])
  }

  function Next(p: Pool, a: Action): Pool
    requires Enabled(p, a)
  {
    match a
    case Begin => p.(state := STARTED, main := Creating(0))
    case Create => SetWorker(p, p.main.next, Locking).(main := Creating(p.main.next + 1))
    case Started => p.(main := Serving)
    case Submit(j, task) => SetSubmitter(p, j, Asking(task))
    case Enter(j) => SetSubmitter(p, j, Entered(p.submitters[j].task)).(owner := BySubmitter(j))
    case Push(j) =>
      if Full(p) then SetSubmitter(p, j, Returning(-1))
      else SetSubmitter(p, j, Pushed).(tasks := p.tasks + [p.submitters[j].task],
           accepted := p.accepted + [p.submitters[j].task])
    case Signal(j, woken) =>
      var p' := SetSubmitter(p, j, Returning(0));
      if woken.Some? then SetWorker(p', woken.value, Woken) else p'
    case Return(j) => SetSubmitter(p, j, Idle).(owner := Nobody)
    case Lock(i) => SetWorker(p, i, Checking).(owner := ByWorker(i))
    case Check(i) => Checked(p, i)
    case Unlock(i) => SetWorker(p, i,
                      if p.workers[i].Holding? then Running(p.workers[i].task) else Exited).(owner := Nobody)
    case Finish(i) => SetWorker(p, i, Locking).(finished := p.finished + multiset{p.workers[i].task})
    case WakeSpuriously(i) => SetWorker(p, i, Woken)
    case Stop => p.(main := AskingStop)
    case LockToStop => p.(main := Stopping, owner := ByMain)
    case SetFlag => p.(state := STOPPED, main := FlagSet)
    case Broadcast => p.(workers := UnparkAll(p.workers), main := Broadcasted)
    case UnlockToJoin => p.(main := Joining(0), owner := Nobody)
    case Join => p.(main := if p.main.next < |p.workers| then Joining(p.main.next + 1) else Destroyed)
  }

  // ----- Counting -----

  /** How many workers are heading for the lock or hold it to look at the queue. */
  function Heading(ws: seq<Worker>): nat {
    if ws == [] then 0 else Heading(ws[..|ws| - 1]) + (if ws[|ws| - 1].Heads() then 1 else 0)
  }

  function InHandOf(w: Worker): multiset<Task> {
    if w.Holding? || w.Running? then multiset{w.task} else multiset{}
  }

  /** The tasks that workers have in hand. */
  function InHand(ws: seq<Worker>): multiset<Task> {
    if ws == [] then multiset{} else InHand(ws[..|ws| - 1]) + InHandOf(ws[|ws| - 1])
  }

  lemma {:induction false} HeadingUpdate(ws: seq<Worker>, i: nat, w: Worker)
    requires i < |ws|
    ensures Heading(ws[i := w]) + (if ws[i].Heads() then 1 else 0) == Heading(ws) + (if w.Heads() then 1 else 0)
  {
    var front := ws[..|ws| - 1];
    if i == |front| {
      assert ws[i := w][..|ws| - 1] == front;
    } else {
      HeadingUpdate(front, i, w);
      assert ws[i := w][..|ws| - 1] == front[i := w];
    }
  }

  lemma {:induction false} InHandUpdate(ws: seq<Worker>, i: nat, w: Worker)
    requires i < |ws|
    ensures InHand(ws[i := w]) + InHandOf(ws[i]) == InHand(ws) + InHandOf(w)
  {
    hide InHandOf;
    var front, last := ws[..|ws| - 1], ws[|ws| - 1];
    if i == |front| {
      assert ws[i := w][..|ws| - 1] == front;
      assert InHand(front) + InHandOf(w) + InHandOf(last) == InHand(front) + InHandOf(last) + InHandOf(w);
    } else {
      InHandUpdate(front, i, w);
      assert ws[i := w][..|ws| - 1] == front[i := w];
      assert InHand(front[i := w]) + InHandOf(last) + InHandOf(ws[i])
             == (InHand(front[i := w]) + InHandOf(ws[i])) + InHandOf(last);
      assert InHand(front) + InHandOf(last) + InHandOf(w) == (InHand(front) + InHandOf(w)) + InHandOf(last);
    }
  }

  lemma {:induction false} UnparkCounts(ws: seq<Worker>)
    ensures InHand(UnparkAll(ws)) == InHand(ws)
    ensures !AnyParked(UnparkAll(ws))
  {
    if ws != [] {
      UnparkCounts(ws[..|ws| - 1]);
      assert UnparkAll(ws)[..|ws| - 1] == UnparkAll(ws[..|ws| - 1]);
    }
  }

  // ----- What every interleaving keeps -----

  /** The mutex: its owner is the one thread inside a critical section. */
  ghost predicate Exclusive(p: Pool) {
    WorkersExclusive(p) && SubmittersExclusive(p) && (p.main.Owns() <==> p.owner == ByMain)
  }

  ghost predicate WorkersExclusive(p: Pool) {
    && (p.owner.ByWorker? ==> p.owner.i < |p.workers|)
    && forall i | 0 <= i < |p.workers| :: p.workers[i].Owns() <==> p.owner == ByWorker(i)
  }

  ghost predicate SubmittersExclusive(p: Pool) {
    && (p.owner.BySubmitter? ==> p.owner.j < |p.submitters|)
    && forall j | 0 <= j < |p.submitters| :: p.submitters[j].Owns() <==> p.owner == BySubmitter(j)
  }

  /** Accepted tasks are exactly those queued, in hand and finished; they are taken in the order they were accepted. */
  ghost predicate Conserved(p: Pool) {
    && p.accepted == p.started + p.tasks
    && multiset(p.started) == InHand(p.workers) + p.finished
  }

  /** A submitter has pushed a task and not yet signalled. */
  ghost predicate SignalPending(p: Pool) {
    p.owner.BySubmitter? && p.owner.j < |p.submitters| && p.submitters[p.owner.j].Pushed?
  }

  /** No wakeup is lost: while anyone is parked, somebody comes for each queued task. */
  ghost predicate NoLostWakeup(p: Pool) {
    AnyParked(p.workers) ==> |p.tasks| <= Heading(p.workers) + (if SignalPending(p) then 1 else 0)
  }

  ghost predicate Limited(p: Pool) {
    p.limit > 0 ==> |p.tasks| <= p.limit + 1
  }

  /** The life of the pool: workers are born in order, leave only after the stop flag, and are joined in order. */
  ghost predicate Staged(p: Pool) {
    && (p.main.Stopped() <==> p.state == STOPPED)
    && (forall i | 0 <= i < |p.workers| :: p.workers[i].Unborn? <==>
       p.main.Before? || (p.main.Creating? && p.main.next <= i))
    && (forall i | 0 <= i < |p.workers| :: p.workers[i].Leaving? || p.workers[i].Exited? ==> p.state == STOPPED)
    && (p.main.Broadcasted? || p.main.Joining? || p.main.Destroyed? ==> !AnyParked(p.workers))
    && (p.main.Creating? || p.main.Joining? ==> p.main.next <= |p.workers|)
    && (forall i | 0 <= i < |p.workers| :: p.main.Destroyed? || (p.main.Joining? && i < p.main.next) ==>
       p.workers[i].Exited?)
  }

  ghost predicate Inv(p: Pool) {
    Exclusive(p) && Conserved(p) && NoLostWakeup(p) && Limited(p) && Staged(p)
  }

  lemma StartIsInv(limit: int, size: nat, submitters: nat)
    ensures Inv(Start(limit, size, submitters))
  {
    var p := Start(limit, size, submitters);
    NothingInHand(p.workers);
    assert p.accepted == p.started + p.tasks;
  }

  lemma {:induction false} NothingInHand(ws: seq<Worker>)
    requires forall i | 0 <= i < |ws| :: ws[i].Unborn?
    ensures InHand(ws) == multiset{}
  {
    if ws != [] {
      NothingInHand(ws[..|ws| - 1]);
    }
  }

  lemma WorkersExclusiveKept(p: Pool, a: Action)
    requires Exclusive(p) && Staged(p) && Enabled(p, a)
    ensures WorkersExclusive(Next(p, a))
  {
    hide MayWake;
    if a.Signal? {
      SignalWakesParked(p, a.j, a.woken);
    }
  }

  lemma SubmittersExclusiveKept(p: Pool, a: Action)
    requires Exclusive(p) && Enabled(p, a)
    ensures SubmittersExclusive(Next(p, a))
  {
    hide MayWake;
  }

  lemma MainExclusiveKept(p: Pool, a: Action)
    requires Exclusive(p) && Enabled(p, a)
    ensures Next(p, a).main.Owns() <==> Next(p, a).owner == ByMain
  {
    hide MayWake;
  }

  lemma ExclusiveKept(p: Pool, a: Action)
    requires Exclusive(p) && Staged(p) && Enabled(p, a)
    ensures Exclusive(Next(p, a))
  {
    hide Enabled, Next, WorkersExclusive, SubmittersExclusive, Staged;
    WorkersExclusiveKept(p, a);
    SubmittersExclusiveKept(p, a);
    MainExclusiveKept(p, a);
  }

  lemma SignalWakesParked(p: Pool, j: nat, woken: Option<nat>)
    requires Enabled(p, Signal(j, woken))
    ensures woken.Some? ==> woken.value < |p.workers| && p.workers[woken.value].Parked?
  {
  }

  /** The worker that a step moves. */
  function Mover(p: Pool, a: Action): Option<nat> {
    match a
    case Create => if p.main.Creating? then Some(p.main.next) else None
    case Signal(_, woken) => woken
    case Lock(i) => Some(i)
    case Check(i) => Some(i)
    case Unlock(i) => Some(i)
    case Finish(i) => Some(i)
    case WakeSpuriously(i) => Some(i)
    case _ => None
  }

  /** Apart from a broadcast a step moves at most one worker. */
  lemma OneMover(p: Pool, a: Action)
    requires Enabled(p, a) && !a.Broadcast?
    ensures var m := Mover(p, a);
            if m.None? then Next(p, a).workers == p.workers
            else m.value < |p.workers| && |Next(p, a).workers| == |p.workers|
                 && Next(p, a).workers == p.workers[m.value := Next(p, a).workers[m.value]]
  {
    hide MayWake;
    if a.Signal? {
      SignalWakesParked(p, a.j, a.woken);
    }
  }

  lemma OrderKept(p: Pool, a: Action)
    requires p.accepted == p.started + p.tasks && Enabled(p, a)
    ensures Next(p, a).accepted == Next(p, a).started + Next(p, a).tasks
  {
    match a
    case Push(j) =>
      assert p.started + (p.tasks + [p.submitters[j].task]) == (p.started + p.tasks) + [p.submitters[j].task];
    case Check(i) =>
      if p.state != STOPPED && p.tasks != [] {
        assert p.tasks == [p.tasks[0]] + p.tasks[1..];
        assert (p.started + [p.tasks[0]]) + p.tasks[1..] == p.started + p.tasks;
      }
    case _ =>
  }

  lemma HistoryUnmoved(p: Pool, a: Action)
    requires Enabled(p, a) && !a.Check? && !a.Finish?
    ensures Next(p, a).started == p.started && Next(p, a).finished == p.finished
  {
    hide MayWake;
  }

  /** Only a worker that takes or finishes a task changes what it has in hand. */
  lemma HandsUnmoved(p: Pool, a: Action, i: nat)
    requires Enabled(p, a) && !a.Check? && !a.Finish? && Mover(p, a) == Some(i) && i < |p.workers|
             && i < |Next(p, a).workers|
    requires a.Create? ==> p.workers[i].Unborn?
    ensures InHandOf(Next(p, a).workers[i]) == InHandOf(p.workers[i])
  {
    hide AnyParked;
  }

  lemma TaskTaken(p: Pool, i: nat)
    requires Enabled(p, Check(i))
    ensures var q := Next(p, Check(i));
            && multiset(q.started) == multiset(p.started) + InHandOf(q.workers[i])
            && q.finished == p.finished && InHandOf(p.workers[i]) == multiset{}
  {
    if p.state != STOPPED && p.tasks != [] {
      assert multiset(p.started + [p.tasks[0]]) == multiset(p.started) + multiset{p.tasks[0]};
    }
  }

  lemma TaskFinished(p: Pool, i: nat)
    requires Enabled(p, Finish(i))
    ensures var q := Next(p, Finish(i));
            && q.started == p.started
            && q.finished == p.finished + InHandOf(p.workers[i]) && InHandOf(q.workers[i]) == multiset{}
  {
  }

  lemma HandsKept(p: Pool, a: Action)
    requires Enabled(p, a) && multiset(p.started) == InHand(p.workers) + p.finished
    requires a.Create? ==> p.workers[p.main.next].Unborn?
    ensures multiset(Next(p, a).started) == InHand(Next(p, a).workers) + Next(p, a).finished
  {
    hide InHand, InHandOf, Next, Enabled;
    OneMoverOrBroadcast(p, a);
    if a.Check? {
      TaskTaken(p, a.i);
    } else if a.Finish? {
      TaskFinished(p, a.i);
    } else {
      HistoryUnmoved(p, a);
      if Mover(p, a).Some? {
        HandsUnmoved(p, a, Mover(p, a).value);
      }
    }
  }

  lemma ConservedKept(p: Pool, a: Action)
    requires Inv(p) && Enabled(p, a)
    ensures Conserved(Next(p, a))
  {
    hide Exclusive, NoLostWakeup, Limited;
    OrderKept(p, a);
    HandsKept(p, a);
  }

  /** How a step changes what is in hand. */
  lemma OneMoverOrBroadcast(p: Pool, a: Action)
    requires Enabled(p, a)
    ensures var q := Next(p, a);
            |q.workers| == |p.workers| &&
            match Mover(p, a)
            case None => InHand(q.workers) == InHand(p.workers)
            case Some(i) => i < |p.workers| && InHand(q.workers)
                            == InHand(p.workers) + InHandOf(q.workers[i]) - InHandOf(p.workers[i])
                            && InHandOf(p.workers[i]) <= InHand(p.workers)
  {
    hide InHand, Enabled, Next;
    if a.Broadcast? {
      UnparkCounts(p.workers);
      BroadcastUnparks(p);
    } else {
      OneMover(p, a);
      if Mover(p, a).Some? {
        var i := Mover(p, a).value;
        InHandUpdate(p.workers, i, Next(p, a).workers[i]);
        InHandIncludes(p.workers, i);
        Subtract(InHand(Next(p, a).workers), InHandOf(p.workers[i]));
      }
    }
  }

  lemma Subtract(x: multiset<Task>, y: multiset<Task>)
    ensures x + y - y == x
  {
  }

  lemma {:induction false} InHandIncludes(ws: seq<Worker>, i: nat)
    requires i < |ws|
    ensures InHandOf(ws[i]) <= InHand(ws)
  {
    if i < |ws| - 1 {
      InHandIncludes(ws[..|ws| - 1], i);
    }
  }

  lemma BroadcastUnparks(p: Pool)
    requires Enabled(p, Broadcast)
    ensures Next(p, Broadcast).workers == UnparkAll(p.workers)
  {
  }

  lemma LimitedKept(p: Pool, a: Action)
    requires Limited(p) && Enabled(p, a)
    ensures Limited(Next(p, a))
  {
    hide MayWake;
  }

  /** A worker that is parked after a step was parked before, or has just parked. */
  lemma ParkedBefore(p: Pool, a: Action)
    requires Enabled(p, a) && AnyParked(Next(p, a).workers)
    ensures !a.Broadcast? && (AnyParked(p.workers) || (a.Check? && p.state != STOPPED && p.tasks == []))
  {
    hide MayWake;
    var w :| w in Next(p, a).workers && w.Parked?;
    var i :| 0 <= i < |Next(p, a).workers| && Next(p, a).workers[i] == w;
    if a.Broadcast? {
      UnparkCounts(p.workers);
    } else {
      OneMover(p, a);
      assert Mover(p, a) != Some(i) ==> p.workers[i] in p.workers;
    }
  }

  lemma HeadingMoves(p: Pool, a: Action)
    requires Enabled(p, a) && !a.Broadcast?
    ensures var q := Next(p, a);
            |q.workers| == |p.workers| &&
            match Mover(p, a)
            case None => Heading(q.workers) == Heading(p.workers)
            case Some(i) => i < |p.workers| && Heading(q.workers) + (if p.workers[i].Heads() then 1 else 0)
                            == Heading(p.workers) + (if q.workers[i].Heads() then 1 else 0)
  {
    hide Heading, Enabled, Next;
    OneMover(p, a);
    if Mover(p, a).Some? {
      HeadingUpdate(p.workers, Mover(p, a).value, Next(p, a).workers[Mover(p, a).value]);
    }
  }

  /** Who may still be about to signal. */
  lemma PendingMoves(p: Pool, a: Action)
    requires Exclusive(p) && Enabled(p, a)
    ensures a.Push? ==> !SignalPending(p) && (SignalPending(Next(p, a)) <==> !Full(p))
    ensures a.Signal? ==> SignalPending(p) && !SignalPending(Next(p, a))
    ensures a.Lock? || a.Check? || a.Unlock? || a.LockToStop? || a.SetFlag? || a.UnlockToJoin? || a.Enter?
            || a.Return? ==>
              !SignalPending(p) && !SignalPending(Next(p, a))
    ensures a.Begin? || a.Create? || a.Started? || a.Finish? || a.WakeSpuriously? || a.Stop? || a.Join? || a.Submit? ==>
              (SignalPending(p) <==> SignalPending(Next(p, a)))
  {
    hide MayWake;
  }

  lemma NoLostWakeupKept(p: Pool, a: Action)
    requires Inv(p) && Enabled(p, a)
    ensures NoLostWakeup(Next(p, a))
  {
    hide Heading, Conserved, Limited, Exclusive, SignalPending, AnyParked;
    var q := Next(p, a);
    if AnyParked(q.workers) {
      ParkedBefore(p, a);
      HeadingMoves(p, a);
      PendingMoves(p, a);
      if a.Check? && p.state == STOPPED {
        CheckedAfterStop(p, a.i);
      }
      if a.Signal? {
        SignalWakesParked(p, a.j, a.woken);
      }
    }
  }

  /** Whoever finds the stop flag set looks after the broadcast. */
  lemma CheckedAfterStop(p: Pool, i: nat)
    requires Exclusive(p) && Staged(p) && Enabled(p, Check(i)) && p.state == STOPPED
    ensures !AnyParked(p.workers)
  {
  }

  lemma StagedKept(p: Pool, a: Action)
    requires Inv(p) && Enabled(p, a)
    ensures Staged(Next(p, a))
  {
    hide MayWake, Heading, Conserved, NoLostWakeup, Limited, Exclusive, AnyParked;
    var q := Next(p, a);
    if AnyParked(q.workers) {
      ParkedBefore(p, a);
    }
    if a.Signal? {
      SignalWakesParked(p, a.j, a.woken);
    }
  }

  /** One step of any thread keeps the invariant. */
  lemma InvKept(p: Pool, a: Action)
    requires Inv(p) && Enabled(p, a)
    ensures Inv(Next(p, a))
  {
    hide Exclusive, Conserved, NoLostWakeup, Limited, Staged, Next, Enabled;
    ExclusiveKept(p, a);
    ConservedKept(p, a);
    NoLostWakeupKept(p, a);
    LimitedKept(p, a);
    StagedKept(p, a);
  }

  // ----- Whole runs -----

  /** The interleaving `steps` leads from one state of the pool to another. */
  ghost predicate Runs(p: Pool, steps: seq<Action>, q: Pool)
    decreases |steps|
  {
    if steps == [] then p == q else Enabled(p, steps[0]) && Runs(Next(p, steps[0]), steps[1..], q)
  }

  lemma {:induction false} RunKeepsInv(p: Pool, steps: seq<Action>, q: Pool)
    requires Inv(p) && Runs(p, steps, q)
    ensures Inv(q)
    decreases |steps|
  {
    hide Inv, Enabled, Next;
    if steps != [] {
      InvKept(p, steps[0]);
      RunKeepsInv(Next(p, steps[0]), steps[1..], q);
    }
  }

  /**
   Every reachable state of one start/stop cycle: accepted tasks are exactly queued, in hand and
   finished, and were started in submission order; the queue is at most one over the limit; while a
   worker is parked and no signal is under way, somebody comes for each queued task; and when destroy
   has returned, every worker has exited and every task that was started has finished.
   */
  lemma EveryRunIsSafe(limit: int, size: nat, submitters: nat, steps: seq<Action>, q: Pool)
    requires Runs(Start(limit, size, submitters), steps, q)
    ensures q.accepted == q.started + q.tasks
    ensures multiset(q.accepted) == multiset(q.tasks) + InHand(q.workers) + q.finished
    ensures q.limit > 0 ==> |q.tasks| <= q.limit + 1
    ensures AnyParked(q.workers) && !SignalPending(q) ==> |q.tasks| <= Heading(q.workers)
    ensures q.main.Broadcasted? || q.main.Joining? || q.main.Destroyed? ==> !AnyParked(q.workers)
    ensures q.main.Destroyed? ==> (forall w <- q.workers :: w.Exited?) && multiset(q.started) == q.finished
  {
    hide Exclusive, Next, Enabled, Heading, InHand, Start, Runs;
    StartIsInv(limit, size, submitters);
    RunKeepsInv(Start(limit, size, submitters), steps, q);
    assert multiset(q.accepted) == multiset(q.started) + multiset(q.tasks);
    if q.main.Destroyed? {
      AllExited(q.workers);
    }
  }

  lemma {:induction false} AllExited(ws: seq<Worker>)
    requires forall i | 0 <= i < |ws| :: ws[i].Exited?
    ensures InHand(ws) == multiset{}
  {
    if ws != [] {
      AllExited(ws[..|ws| - 1]);
    }
  }

  lemma HistoryGrows(p: Pool, a: Action)
    requires Enabled(p, a) && (p.state == STOPPED ==> p.main.Stopped())
    ensures var q := Next(p, a);
            && p.started <= q.started && p.accepted <= q.accepted
            && (p.state == STOPPED ==> q.started == p.started && q.state == STOPPED)
  {
    hide MayWake;
  }

  /** Tasks are started in order and at most once; after the stop flag is set none is started. */
  lemma {:induction false} NothingStartsAfterStop(p: Pool, steps: seq<Action>, q: Pool)
    requires Inv(p) && Runs(p, steps, q)
    ensures p.started <= q.started && p.accepted <= q.accepted
    ensures p.state == STOPPED ==> q.started == p.started && q.state == STOPPED
    decreases |steps|
  {
    hide Enabled, Next, Exclusive, Conserved, NoLostWakeup, Limited;
    if steps != [] {
      HistoryGrows(p, steps[0]);
      InvKept(p, steps[0]);
      NothingStartsAfterStop(Next(p, steps[0]), steps[1..], q);
    }
  }

  /** A queued task is looked for: with somebody parked, some worker can take the free lock. */
  lemma QueuedTaskIsSought(p: Pool)
    requires Inv(p) && p.owner.Nobody? && p.tasks != [] && AnyParked(p.workers)
    ensures exists i :: Enabled(p, Lock(i))
  {
    var i := SomeHeads(p.workers);
    assert Enabled(p, Lock(i));
  }

  lemma {:induction false} SomeHeads(ws: seq<Worker>) returns (i: nat)
    requires Heading(ws) > 0
    ensures i < |ws| && ws[i].Heads()
  {
    if ws[|ws| - 1].Heads() {
      i := |ws| - 1;
    } else {
      i := SomeHeads(ws[..|ws| - 1]);
    }
  }

  // ----- Joining -----

  /** How many of its own steps a worker is from its exit once the stop flag is set, nobody being parked. */
  function StepsLeft(w: Worker): nat {
    match w
    case Exited => 0 case Leaving => 1 case Checking => 2 case Locking => 3 case Woken => 3
    case Running(_) => 4 case Holding(_) => 5 case _ => 6
  }

  function AllStepsLeft(ws: seq<Worker>): nat {
    if ws == [] then 0 else AllStepsLeft(ws[..|ws| - 1]) + StepsLeft(ws[|ws| - 1])
  }

  lemma {:induction false} StepsLeftUpdate(ws: seq<Worker>, i: nat, w: Worker)
    requires i < |ws|
    ensures AllStepsLeft(ws[i := w]) + StepsLeft(ws[i]) == AllStepsLeft(ws) + StepsLeft(w)
    ensures StepsLeft(ws[i]) <= AllStepsLeft(ws)
  {
    var front := ws[..|ws| - 1];
    if i == |front| {
      assert ws[i := w][..|ws| - 1] == front;
    } else {
      StepsLeftUpdate(front, i, w);
      assert ws[i := w][..|ws| - 1] == front[i := w];
    }
  }

  predicate IsWorkerStep(a: Action) {
    a.Lock? || a.Check? || a.Unlock? || a.Finish? || a.WakeSpuriously?
  }

  /** The broadcast is over. */
  predicate Released(p: Pool) {
    p.main.Broadcasted? || p.main.Joining? || p.main.Destroyed?
  }

  lemma StepsLeftMove(p: Pool, a: Action)
    requires Inv(p) && Enabled(p, a) && Released(p)
    ensures var q := Next(p, a);
            && Released(q)
            && (IsWorkerStep(a) ==> AllStepsLeft(q.workers) < AllStepsLeft(p.workers))
            && (!IsWorkerStep(a) ==> AllStepsLeft(q.workers) == AllStepsLeft(p.workers))
  {
    hide AllStepsLeft, Heading, Conserved, NoLostWakeup, Limited, Exclusive, AnyParked;
    if a.Signal? {
      SignalWakesParked(p, a.j, a.woken);
    }
    NobodyParked(p);
    OneMover(p, a);
    if Mover(p, a).Some? {
      StepsLeftUpdate(p.workers, Mover(p, a).value, Next(p, a).workers[Mover(p, a).value]);
    }
  }

  lemma NobodyParked(p: Pool)
    requires Staged(p) && Released(p)
    ensures forall i | 0 <= i < |p.workers| :: !p.workers[i].Parked?
    ensures p.state == STOPPED && !p.main.Creating?
  {
    forall i | 0 <= i < |p.workers| ensures !p.workers[i].Parked? {
      assert p.workers[i] in p.workers;
    }
  }

  function WorkerSteps(steps: seq<Action>): nat {
    if steps == [] then 0 else (if IsWorkerStep(steps[0]) then 1 else 0) + WorkerSteps(steps[1..])
  }

  /** After the broadcast the workers together take a bounded number of steps, however they are interleaved. */
  lemma {:induction false} WorkersRunOut(p: Pool, steps: seq<Action>, q: Pool)
    requires Inv(p) && Released(p) && Runs(p, steps, q)
    ensures Released(q) && WorkerSteps(steps) + AllStepsLeft(q.workers) <= AllStepsLeft(p.workers)
    decreases |steps|
  {
    hide Inv, Enabled, Next, AllStepsLeft, Released;
    if steps != [] {
      StepsLeftMove(p, steps[0]);
      InvKept(p, steps[0]);
      WorkersRunOut(Next(p, steps[0]), steps[1..], q);
    }
  }

  /** What stands between a submitter that owns the mutex and its release. */
  function OwnerLeft(p: Pool): nat {
    if p.owner.BySubmitter? && p.owner.j < |p.submitters| then
      match p.submitters[p.owner.j] case Entered(_) => 3 case Pushed => 2 case Returning(_) => 1 case _ => 0
    else 0
  }

  /** A step that brings joining nearer: of the worker joined next, or of whoever owns the mutex. */
  ghost function Forward(p: Pool): Action
    requires p.main.Joining?
  {
    var k := p.main.next;
    if k >= |p.workers| || p.workers[k].Exited? then Join
    else if p.workers[k].Running? then Finish(k)
    else if p.owner.Nobody? then Lock(k)
    else if p.owner.ByWorker? then
      (if p.owner.i < |p.workers| && p.workers[p.owner.i].Checking? then Check(p.owner.i) else Unlock(p.owner.i))
    else if p.owner.BySubmitter? && p.owner.j < |p.submitters| then
      match p.submitters[p.owner.j]
      case Entered(_) => Push(p.owner.j)
      case Pushed => Signal(p.owner.j, None)
      case _ => Return(p.owner.j)
    else Join
  }

  lemma ForwardIsEnabled(p: Pool)
    requires Inv(p) && p.main.Joining?
    ensures Enabled(p, Forward(p))
  {
    hide Conserved, NoLostWakeup, Limited, Heading, InHand;
    NobodyParked(p);
  }

  /** Joining can always be brought to its end, in a number of steps known beforehand: it ends if tasks do. */
  lemma {:induction false} JoiningEnds(p: Pool) returns (steps: seq<Action>, q: Pool)
    requires Inv(p) && p.main.Joining?
    ensures Runs(p, steps, q) && q.main.Destroyed?
    ensures |steps| <= 4 * AllStepsLeft(p.workers) + OwnerLeft(p) + (|p.workers| - p.main.next) + 1
    decreases AllStepsLeft(p.workers), OwnerLeft(p), |p.workers| - p.main.next
  {
    hide Inv, Enabled, AllStepsLeft;
    ForwardIsEnabled(p);
    var a := Forward(p);
    var p' := Next(p, a);
    InvKept(p, a);
    StepsLeftMove(p, a);
    ForwardGains(p);
    if p'.main.Destroyed? {
      steps, q := [a], p';
      assert steps[1..] == [];
    } else {
      var more;
      more, q := JoiningEnds(p');
      steps := [a] + more;
      assert steps[1..] == more;
    }
  }

  lemma ForwardGains(p: Pool)
    requires Inv(p) && p.main.Joining? && Enabled(p, Forward(p))
    ensures var a := Forward(p);
            var q := Next(p, a);
            && |q.workers| == |p.workers|
            && (a.Join? ==>
               OwnerLeft(q) == OwnerLeft(p) && (q.main.Destroyed?
                 || (q.main.Joining? && q.main.next == p.main.next + 1 <= |p.workers|)))
            && (!a.Join? ==> q.main == p.main)
            && (IsWorkerStep(a) ==> OwnerLeft(q) <= OwnerLeft(p))
            && (!IsWorkerStep(a) && !a.Join? ==> OwnerLeft(q) < OwnerLeft(p))
            && OwnerLeft(q) <= 3
            && p.main.next <= |p.workers|
  {
    hide Conserved, NoLostWakeup, Limited, Heading, InHand, MayWake;
  }

  /** How many of its own steps a thread is from the end of its call of `add_task`. */
  function CallLeft(s: Submitter): nat {
    match s case Idle => 0 case Asking(_) => 4 case Entered(_) => 3 case Pushed => 2 case Returning(_) => 1
  }

  function CallsLeft(ss: seq<Submitter>): nat {
    if ss == [] then 0 else CallsLeft(ss[..|ss| - 1]) + CallLeft(ss[|ss| - 1])
  }

  lemma {:induction false} CallsLeftUpdate(ss: seq<Submitter>, j: nat, s: Submitter)
    requires j < |ss|
    ensures CallsLeft(ss[j := s]) + CallLeft(ss[j]) == CallsLeft(ss) + CallLeft(s)
  {
    var front := ss[..|ss| - 1];
    if j == |front| {
      assert ss[j := s][..|ss| - 1] == front;
    } else {
      CallsLeftUpdate(front, j, s);
      assert ss[j := s][..|ss| - 1] == front[j := s];
    }
  }

  function JoinsLeft(p: Pool): int {
    if p.main.Joining? then |p.workers| - p.main.next + 1 else 0
  }

  /** The steps that are left once joining has begun, if nobody submits anything new. */
  function Left(p: Pool): int {
    AllStepsLeft(p.workers) + CallsLeft(p.submitters) + JoinsLeft(p)
  }

  predicate IsJoining(p: Pool) {
    p.main.Joining? || p.main.Destroyed?
  }

  lemma CallsMove(p: Pool, a: Action)
    requires Enabled(p, a)
    ensures var before, after := CallsLeft(p.submitters), CallsLeft(Next(p, a).submitters);
            if a.Submit? then after == before + 4
            else if a.Enter? || a.Push? || a.Signal? || a.Return? then after < before
            else after == before
  {
    hide CallsLeft, MayWake;
    if a.Submit? || a.Enter? || a.Push? || a.Signal? || a.Return? {
      CallsLeftUpdate(p.submitters, a.j, Next(p, a).submitters[a.j]);
    }
  }

  lemma JoinsMove(p: Pool, a: Action)
    requires Staged(p) && IsJoining(p) && Enabled(p, a)
    ensures IsJoining(Next(p, a)) && JoinsLeft(p) >= 0
    ensures a.Join? || IsWorkerStep(a) || a.Submit? || a.Enter? || a.Push? || a.Signal? || a.Return?
    ensures JoinsLeft(Next(p, a)) == JoinsLeft(p) - if a.Join? then 1 else 0
  {
    hide MayWake, AnyParked;
    OneMover(p, a);
  }

  lemma LeftMove(p: Pool, a: Action)
    requires Inv(p) && IsJoining(p) && Enabled(p, a)
    ensures IsJoining(Next(p, a)) && 0 <= Left(Next(p, a)) < Left(p) + if a.Submit? then 5 else 0
  {
    hide AllStepsLeft, CallsLeft, JoinsLeft, Enabled, Next, Exclusive, Conserved, NoLostWakeup, Limited, Staged;
    StepsLeftMove(p, a);
    CallsMove(p, a);
    JoinsMove(p, a);
    InvKept(p, a);
    JoinsNotNegative(Next(p, a));
  }

  lemma JoinsNotNegative(p: Pool)
    requires Staged(p) && IsJoining(p)
    ensures JoinsLeft(p) >= 0
  {
  }

  function Submits(steps: seq<Action>): nat {
    if steps == [] then 0 else (if steps[0].Submit? then 1 else 0) + Submits(steps[1..])
  }

  /** Nothing can happen any more unless somebody submits a task. */
  ghost predicate AtRest(p: Pool) {
    forall a: Action | !a.Submit? :: !Enabled(p, a)
  }

  /**
   Once joining has begun, every run is short, whatever the interleaving and the spurious wakeups: it has at
   most as many steps as are left, and five more for each new submission. A run that cannot go on without
   a new submission has joined every worker.
   */
  lemma {:induction false} EveryRunJoins(p: Pool, steps: seq<Action>, q: Pool)
    requires Inv(p) && IsJoining(p) && Runs(p, steps, q)
    ensures |steps| <= Left(p) + 5 * Submits(steps)
    ensures IsJoining(q) && (AtRest(q) ==> q.main.Destroyed?)
    decreases |steps|
  {
    hide Inv, Enabled, Next, Left;
    if steps == [] {
      LeftNotNegative(p);
      if p.main.Joining? {
        JoiningGoesOn(p);
      }
    } else {
      LeftMove(p, steps[0]);
      InvKept(p, steps[0]);
      EveryRunJoins(Next(p, steps[0]), steps[1..], q);
    }
  }

  lemma JoiningGoesOn(p: Pool)
    requires Inv(p) && p.main.Joining?
    ensures !AtRest(p)
  {
    hide Inv, Enabled;
    ForwardIsEnabled(p);
    assert !Forward(p).Submit?;
  }

  lemma LeftNotNegative(p: Pool)
    requires Inv(p) && IsJoining(p)
    ensures Left(p) >= 0
  {
    hide AllStepsLeft, CallsLeft, JoinsLeft, Exclusive, Conserved, NoLostWakeup, Limited;
    JoinsNotNegative(p);
  }

  // ----- Serving -----

  /** How many of its own steps a worker is from being parked, if it finds no further task. */
  function WorkLeft(w: Worker): nat {
    match w
    case Checking => 1 case Locking => 2 case Woken => 2 case Running(_) => 3 case Holding(_) => 4 case _ => 0
  }

  function AllWorkLeft(ws: seq<Worker>): nat {
    if ws == [] then 0 else AllWorkLeft(ws[..|ws| - 1]) + WorkLeft(ws[|ws| - 1])
  }

  lemma {:induction false} WorkLeftUpdate(ws: seq<Worker>, i: nat, w: Worker)
    requires i < |ws|
    ensures AllWorkLeft(ws[i := w]) + WorkLeft(ws[i]) == AllWorkLeft(ws) + WorkLeft(w)
  {
    var front := ws[..|ws| - 1];
    if i == |front| {
      assert ws[i := w][..|ws| - 1] == front;
    } else {
      WorkLeftUpdate(front, i, w);
      assert ws[i := w][..|ws| - 1] == front[i := w];
    }
  }

  /** The steps that are left while the pool serves, if nobody submits anything new. */
  function ServiceLeft(p: Pool): nat {
    AllWorkLeft(p.workers) + 4 * |p.tasks| + 5 * CallsLeft(p.submitters)
  }

  lemma TasksMove(p: Pool, a: Action)
    requires Enabled(p, a)
    ensures var before, after := |p.tasks|, |Next(p, a).tasks|;
            if a.Push? then after <= before + 1
            else if a.Check? && p.state != STOPPED && p.tasks != [] then after == before - 1
            else after == before
  {
    hide MayWake;
  }

  lemma WorkMove(p: Pool, a: Action)
    requires Inv(p) && p.main.Serving? && Enabled(p, a) && !a.Stop?
    ensures Next(p, a).main.Serving?
    ensures var before, after := AllWorkLeft(p.workers), AllWorkLeft(Next(p, a).workers);
            if a.Lock? || a.Unlock? || a.Finish? then after < before
            else if a.Check? then after < before + (if p.state != STOPPED && p.tasks != [] then 4 else 0)
            else if a.Signal? || a.WakeSpuriously? then after <= before + 2
            else after == before
  {
    hide AllWorkLeft, Heading, Conserved, NoLostWakeup, Limited, Exclusive, AnyParked;
    if a.Signal? {
      SignalWakesParked(p, a.j, a.woken);
    }
    OneMover(p, a);
    if Mover(p, a).Some? {
      WorkLeftUpdate(p.workers, Mover(p, a).value, Next(p, a).workers[Mover(p, a).value]);
    }
  }

  lemma ServiceMove(p: Pool, a: Action)
    requires Inv(p) && p.main.Serving? && Enabled(p, a) && !a.Stop?
    ensures var q := Next(p, a);
            && q.main.Serving? && |q.workers| == |p.workers|
            && ServiceLeft(q) < ServiceLeft(p) + (if a.Submit? then 21 else if a.WakeSpuriously? then 3 else 0)
  {
    hide AllWorkLeft, CallsLeft, Enabled, Next, Inv;
    WorkMove(p, a);
    TasksMove(p, a);
    CallsMove(p, a);
    WorkersStay(p, a);
    ServingSteps(p, a);
  }

  lemma WorkersStay(p: Pool, a: Action)
    requires Inv(p) && Enabled(p, a)
    ensures |Next(p, a).workers| == |p.workers|
  {
    hide Heading, Conserved, NoLostWakeup, Limited, Exclusive, AnyParked;
    if !a.Broadcast? {
      OneMover(p, a);
    }
  }

  lemma ServingSteps(p: Pool, a: Action)
    requires p.main.Serving? && Enabled(p, a) && !a.Stop?
    ensures IsWorkerStep(a) || a.Submit? || a.Enter? || a.Push? || a.Signal? || a.Return?
  {
    hide MayWake;
  }

  function Spurious(steps: seq<Action>): nat {
    if steps == [] then 0 else (if steps[0].WakeSpuriously? then 1 else 0) + Spurious(steps[1..])
  }

  /** Nothing happens any more unless somebody submits a task, stops the pool, or wakes a worker for nothing. */
  ghost predicate Settled(p: Pool) {
    forall a: Action | !a.Submit? && !a.Stop? && !a.WakeSpuriously? :: !Enabled(p, a)
  }

  /** All that was accepted has been done. */
  ghost predicate AllDone(p: Pool) {
    && p.tasks == [] && p.finished == multiset(p.accepted)
    && (forall w <- p.workers :: w.Parked?) && (forall s <- p.submitters :: s.Idle?)
  }

  /** Whoever owns the mutex can go on. */
  lemma OwnerGoesOn(p: Pool) returns (a: Action)
    requires Inv(p) && p.main.Serving? && !p.owner.Nobody?
    ensures Enabled(p, a) && !a.Submit? && !a.Stop? && !a.WakeSpuriously?
  {
    hide Conserved, NoLostWakeup, Limited, Heading, InHand;
    if p.owner.ByWorker? {
      a := if p.workers[p.owner.i].Checking? then Check(p.owner.i) else Unlock(p.owner.i);
    } else if p.submitters[p.owner.j].Entered? {
      a := Push(p.owner.j);
    } else if p.submitters[p.owner.j].Returning? {
      a := Return(p.owner.j);
    } else if AnyParked(p.workers) {
      var i: nat :| i < |p.workers| && p.workers[i].Parked?;
      a := Signal(p.owner.j, Some(i));
    } else {
      a := Signal(p.owner.j, None);
    }
  }

  lemma SettledIsDone(p: Pool)
    requires Inv(p) && p.main.Serving? && Settled(p) && p.workers != []
    ensures AllDone(p)
  {
    if !p.owner.Nobody? {
      var a := OwnerGoesOn(p);
    }
    forall i | 0 <= i < |p.workers| ensures p.workers[i].Parked? {
      assert !Enabled(p, Lock(i)) && !Enabled(p, Finish(i));
    }
    forall j | 0 <= j < |p.submitters| ensures p.submitters[j].Idle? {
      assert !Enabled(p, Enter(j));
    }
    AllParked(p.workers);
    assert p.workers[0] in p.workers;
    assert p.accepted == p.started;
  }

  lemma {:induction false} AllParked(ws: seq<Worker>)
    requires forall i | 0 <= i < |ws| :: ws[i].Parked?
    ensures Heading(ws) == 0 && InHand(ws) == multiset{}
  {
    if ws != [] {
      AllParked(ws[..|ws| - 1]);
    }
  }

  /**
   While the pool serves, every run is short, whatever the interleaving: it has at most as many steps as are
   left, and some more for each new submission and for each spurious wakeup. Where it settles, every task
   that was accepted has been run.
   */
  lemma {:induction false} EveryRunServes(p: Pool, steps: seq<Action>, q: Pool)
    requires Inv(p) && p.main.Serving? && p.workers != [] && Runs(p, steps, q) && forall a <- steps :: !a.Stop?
    ensures |steps| <= ServiceLeft(p) + 21 * Submits(steps) + 3 * Spurious(steps)
    ensures q.main.Serving? && (Settled(q) ==> AllDone(q))
    decreases |steps|
  {
    hide Inv, Enabled, Next, ServiceLeft, Settled, AllDone;
    if steps == [] {
      if Settled(p) {
        SettledIsDone(p);
      }
    } else {
      assert steps[0] in steps && forall a <- steps[1..] :: a in steps;
      ServiceMove(p, steps[0]);
      InvKept(p, steps[0]);
      EveryRunServes(Next(p, steps[0]), steps[1..], q);
    }
  }

  /**
   `add_task` takes the task exactly if there is no limit or the queue is no longer than the limit: it goes to
   the end of the queue, and the call comes to return 0. Otherwise the call returns -1 and nothing changes.
   */
  lemma TaskIsTakenExactly(p: Pool, j: nat)
    requires Enabled(p, Push(j))
    ensures var q, task := Next(p, Push(j)), p.submitters[j].task;
            if p.limit <= 0 || |p.tasks| <= p.limit then
              && q == p.(tasks := p.tasks + [task], accepted := p.accepted + [task],
                   submitters := p.submitters[j := Pushed])
              && forall woken | Enabled(q, Signal(j, woken)) :: Next(q, Signal(j, woken)).submitters[j] == Returning(0)
            else q == p.(submitters := p.submitters[j := Returning(-1)])
  {
    hide MayWake;
  }

  // ----- Starting and stopping -----

  lemma {:induction false} RunsOn(p: Pool, a: Action, steps: seq<Action>, q: Pool)
    requires Enabled(p, a) && Runs(Next(p, a), steps, q)
    ensures Runs(p, [a] + steps, q)
  {
    hide Enabled, Next;
    assert ([a] + steps)[1..] == steps;
  }

  lemma {:induction false} CreatingEnds(p: Pool) returns (steps: seq<Action>, q: Pool)
    requires p.main.Creating? && p.main.next <= |p.workers|
    ensures Runs(p, steps, q) && q.main.Serving? && q.owner == p.owner && |q.workers| == |p.workers|
    ensures |steps| == |p.workers| - p.main.next + 1
    ensures forall i | p.main.next <= i < |p.workers| :: q.workers[i].Locking?
    ensures forall i | 0 <= i < p.main.next :: q.workers[i] == p.workers[i]
    decreases |p.workers| - p.main.next
  {
    hide Runs;
    var a := if p.main.next < |p.workers| then Create else Started;
    var p', more := Next(p, a), [];
    if a.Create? {
      more, q := CreatingEnds(p');
    } else {
      q := p';
      NoSteps(q);
    }
    steps := [a] + more;
    RunsOn(p, a, more, q);
  }

  lemma NoSteps(p: Pool)
    ensures Runs(p, [], p)
  {
  }

  /** A pool that has a worker at all can start: then every worker is about to look for a task. */
  lemma PoolStarts(limit: int, size: nat, submitters: nat) returns (steps: seq<Action>, q: Pool)
    requires size > 0
    ensures Runs(Start(limit, size, submitters), steps, q) && |steps| == size + 2
    ensures q.main.Serving? && q.owner.Nobody? && |q.workers| == size && forall w <- q.workers :: w.Locking?
  {
    hide Runs;
    var p := Start(limit, size, submitters);
    var more;
    more, q := CreatingEnds(Next(p, Begin));
    steps := [Begin] + more;
    RunsOn(p, Begin, more, q);
  }

  lemma FlagIsSet(p: Pool)
    requires p.main.Serving? && p.owner.Nobody?
    ensures Enabled(p, Stop)
    ensures var p1 := Next(p, Stop);
            && Enabled(p1, LockToStop)
            && var p2 := Next(p1, LockToStop);
            && Enabled(p2, SetFlag)
            && Next(p2, SetFlag) == p.(state := STOPPED, main := FlagSet, owner := ByMain)
  {
  }

  lemma FlagIsTold(p: Pool)
    requires p.main.FlagSet?
    ensures Enabled(p, Broadcast)
    ensures var p' := Next(p, Broadcast);
            && Enabled(p', UnlockToJoin)
            && Next(p', UnlockToJoin) == p.(workers := UnparkAll(p.workers), main := Joining(0), owner := Nobody)
  {
  }

  /** Where the mutex is free, a serving pool can be stopped: the flag is set and nobody stays parked. */
  lemma PoolStops(p: Pool) returns (q: Pool)
    requires p.main.Serving? && p.owner.Nobody?
    ensures Runs(p, [Stop, LockToStop, SetFlag, Broadcast, UnlockToJoin], q)
    ensures q == p.(state := STOPPED, main := Joining(0), workers := UnparkAll(p.workers))
    ensures !AnyParked(q.workers)
  {
    hide Runs, Enabled, Next, AnyParked;
    FlagIsSet(p);
    var p1 := Next(p, Stop);
    var p2 := Next(p1, LockToStop);
    var p3 := Next(p2, SetFlag);
    FlagIsTold(p3);
    var p4 := Next(p3, Broadcast);
    q := Next(p4, UnlockToJoin);
    UnparkCounts(p3.workers);
    NoSteps(q);
    var s4 := [UnlockToJoin] + [];
    var s3 := [Broadcast] + s4;
    var s2 := [SetFlag] + s3;
    var s1 := [LockToStop] + s2;
    RunsOn(p4, UnlockToJoin, [], q);
    RunsOn(p3, Broadcast, s4, q);
    RunsOn(p2, SetFlag, s3, q);
    RunsOn(p1, LockToStop, s2, q);
    RunsOn(p, Stop, s1, q);
    assert [Stop] + s1 == [Stop, LockToStop, SetFlag, Broadcast, UnlockToJoin];
  }

  // ----- Whole calls and whole rounds -----

  lemma RunsOne(p: Pool, a: Action)
    requires Enabled(p, a)
    ensures Runs(p, [a], Next(p, a))
  {
    hide Enabled, Next;
    NoSteps(Next(p, a));
    RunsOn(p, a, [], Next(p, a));
  }

  lemma AskingEnds(p: Pool, j: nat, task: Task)
    requires p.owner.Nobody? && j < |p.submitters| && p.submitters[j].Idle?
    ensures Enabled(p, Submit(j, task))
    ensures var p1 := Next(p, Submit(j, task));
            && Enabled(p1, Enter(j))
            && Next(p1, Enter(j)) == p.(submitters := p.submitters[j := Entered(task)], owner := BySubmitter(j))
  {
  }

  lemma AnswerReturns(p: Pool, j: nat, p': Pool, answer: int)
    requires j < |p.submitters| && p.submitters[j].Idle? && p.owner.Nobody?
    requires p' == p.(submitters := p.submitters[j := Returning(answer)], owner := BySubmitter(j))
    ensures Enabled(p', Return(j)) && Next(p', Return(j)) == p
  {
    assert p.submitters[j := Idle] == p.submitters;
  }

  /**
   Where the mutex is free any idle thread can add any task: unless the queue is over a positive limit, the
   task is queued last and any one of the parked workers is woken, if there are any.
   */
  lemma CallQueuesTask(p: Pool, j: nat, task: Task, woken: Option<nat>) returns (q: Pool)
    requires p.owner.Nobody? && j < |p.submitters| && p.submitters[j].Idle?
    requires (p.limit <= 0 || |p.tasks| <= p.limit) && if woken.None? then !AnyParked(p.workers)
             else woken.value < |p.workers| && p.workers[woken.value].Parked?
    ensures Runs(p, [Submit(j, task), Enter(j), Push(j), Signal(j, woken), Return(j)], q)
    ensures q == p.(tasks := p.tasks + [task], accepted := p.accepted + [task],
                 workers := match woken case None => p.workers case Some(i) => p.workers[i := Woken])
  {
    hide Runs, AnyParked;
    AskingEnds(p, j, task);
    var p1 := Next(p, Submit(j, task));
    var p2 := Next(p1, Enter(j));
    var p3 := Next(p2, Push(j));
    var p4 := Next(p3, Signal(j, woken));
    q := p.(tasks := p4.tasks, accepted := p4.accepted, workers := p4.workers);
    assert p2.submitters[j := Pushed] == p.submitters[j := Pushed];
    assert p3.submitters[j := Returning(0)] == p.submitters[j := Returning(0)];
    AnswerReturns(q, j, p4, 0);
    RunsOne(p4, Return(j));
    RunsOn(p3, Signal(j, woken), [Return(j)], q);
    RunsOn(p2, Push(j), [Signal(j, woken)] + [Return(j)], q);
    RunsOn(p1, Enter(j), [Push(j)] + ([Signal(j, woken)] + [Return(j)]), q);
    RunsOn(p, Submit(j, task), [Enter(j)] + ([Push(j)] + ([Signal(j, woken)] + [Return(j)])), q);
    assert [Submit(j, task)] + ([Enter(j)] + ([Push(j)] + ([Signal(j, woken)] + [Return(j)])))
        == [Submit(j, task), Enter(j), Push(j), Signal(j, woken), Return(j)];
  }

  /** A call that is refused leaves the pool as it was. */
  lemma CallIsRefused(p: Pool, j: nat, task: Task)
    requires p.owner.Nobody? && j < |p.submitters| && p.submitters[j].Idle? && 0 < p.limit < |p.tasks|
    ensures Runs(p, [Submit(j, task), Enter(j), Push(j), Return(j)], p)
  {
    hide Runs;
    AskingEnds(p, j, task);
    var p1 := Next(p, Submit(j, task));
    var p2 := Next(p1, Enter(j));
    var p3 := Next(p2, Push(j));
    assert p2.submitters[j := Returning(-1)] == p.submitters[j := Returning(-1)];
    AnswerReturns(p, j, p3, -1);
    RunsOne(p3, Return(j));
    RunsOn(p2, Push(j), [Return(j)], p);
    RunsOn(p1, Enter(j), [Push(j)] + [Return(j)], p);
    RunsOn(p, Submit(j, task), [Enter(j)] + ([Push(j)] + [Return(j)]), p);
    assert [Submit(j, task)] + ([Enter(j)] + ([Push(j)] + [Return(j)]))
        == [Submit(j, task), Enter(j), Push(j), Return(j)];
  }

  lemma WorkerLocks(p: Pool, i: nat)
    requires p.owner.Nobody? && i < |p.workers| && p.workers[i].Parked?
    ensures Enabled(p, WakeSpuriously(i))
    ensures var p1 := Next(p, WakeSpuriously(i));
            && Enabled(p1, Lock(i))
            && Next(p1, Lock(i)) == p.(workers := p.workers[i := Checking], owner := ByWorker(i))
  {
  }

  lemma WorkerChecks(p: Pool, p2: Pool, i: nat)
    requires p.owner.Nobody? && i < |p.workers| && p.workers[i].Parked?
    requires p2 == p.(workers := p.workers[i := Checking], owner := ByWorker(i))
    ensures Enabled(p2, Check(i))
    ensures Next(p2, Check(i)) ==
            if p.state == STOPPED then p2.(workers := p.workers[i := Leaving])
            else if p.tasks == [] then p
            else p2.(workers := p.workers[i := Holding(p.tasks[0])], tasks := p.tasks[1..],
                   started := p.started + [p.tasks[0]])
  {
    assert p.workers[i := Parked] == p.workers;
  }

  /**
   A worker that is parked may wake up for no reason. If it then finds a task, it runs the first one; if it
   finds none, it is parked as before; if the pool is stopped, it exits.
   */
  lemma WorkerGoesRound(p: Pool, i: nat) returns (steps: seq<Action>, q: Pool)
    requires p.owner.Nobody? && i < |p.workers| && p.workers[i].Parked?
    ensures Runs(p, [WakeSpuriously(i), Lock(i), Check(i)] + steps, q)
    ensures if p.state == STOPPED then steps == [Unlock(i)] && q == p.(workers := p.workers[i := Exited])
            else if p.tasks == [] then steps == [] && q == p
            else steps == [Unlock(i), Finish(i)]
                 && q == p.(workers := p.workers[i := Locking], tasks := p.tasks[1..],
                         started := p.started + [p.tasks[0]], finished := p.finished + multiset{p.tasks[0]})
  {
    hide Runs;
    WorkerLocks(p, i);
    var p1 := Next(p, WakeSpuriously(i));
    var p2 := Next(p1, Lock(i));
    WorkerChecks(p, p2, i);
    var p3 := Next(p2, Check(i));
    if p.state == STOPPED {
      steps, q := [Unlock(i)], Next(p3, Unlock(i));
      RunsOne(p3, Unlock(i));
    } else if p.tasks == [] {
      steps, q := [], p3;
      NoSteps(q);
    } else {
      var p4 := Next(p3, Unlock(i));
      steps, q := [Unlock(i)] + [Finish(i)], Next(p4, Finish(i));
      RunsOne(p4, Finish(i));
      RunsOn(p3, Unlock(i), [Finish(i)], q);
    }
    RunsOn(p2, Check(i), steps, q);
    RunsOn(p1, Lock(i), [Check(i)] + steps, q);
    RunsOn(p, WakeSpuriously(i), [Lock(i)] + ([Check(i)] + steps), q);
    assert [WakeSpuriously(i)] + ([Lock(i)] + ([Check(i)] + steps)) == [WakeSpuriously(i), Lock(i), Check(i)] + steps;
  }

  // ----- The pool as an object -----

  /** The pool; each method is what one thread does between two points at which others may run. */
  class ThreadPool {
    var taskSizeLimit: int
    var workers: seq<Worker>
    var submitters: seq<Submitter>
    var main: Main
    var owner: Owner
    var tasks: seq<Task>
    var poolState: int
    ghost var accepted: seq<Task>
    ghost var started: seq<Task>
    ghost var finished: multiset<Task>

    ghost function View(): Pool
      reads this
    {
      Pool(taskSizeLimit, workers, submitters, main, owner, tasks, poolState, accepted, started, finished)
    }

    constructor (limit: int, size: nat, threads: nat)
      ensures View() == Start(limit, size, threads) && Inv(View())
    {
      taskSizeLimit, workers, submitters := limit, seq(size, _ => Unborn), seq(threads, _ => Idle);
      main, owner, tasks, poolState := Before, Nobody, [], UNSET;
      accepted, started, finished := [], [], multiset{};
      new;
      StartIsInv(limit, size, threads);
      assert workers == Start(limit, size, threads).workers && submitters == Start(limit, size, threads).submitters;
    }

    /** `start_threadpool`, up to its loop. */
    method StartThreadPool()
      requires Enabled(View(), Begin)
      modifies this`poolState, this`main
      ensures View() == Next(old(View()), Begin)
      ensures poolState == STARTED && main == Creating(0)
    {
      poolState := STARTED;
      main := Creating(0);
    }

    method CreateThread()
      requires Enabled(View(), Create)
      modifies this`workers, this`main
      ensures View() == Next(old(View()), Create)
      ensures workers == old(workers)[old(main).next := Locking] && main == Creating(old(main).next + 1)
    {
      workers := workers[main.next := Locking];
      main := Creating(main.next + 1);
    }

    /** `add_task` with the mutex locked, up to the signal. */
    method AddTask(j: nat)
      requires Enabled(View(), Push(j))
      modifies this`submitters, this`tasks, this`accepted
      ensures View() == Next(old(View()), Push(j))
      ensures taskSizeLimit <= 0 || old(|tasks|) <= taskSizeLimit ==>
                var task := old(submitters)[j].task;
                && tasks == old(tasks) + [task] && accepted == old(accepted) + [task]
                && submitters == old(submitters)[j := Pushed]
      ensures taskSizeLimit > 0 && old(|tasks|) > taskSizeLimit ==>
                && tasks == old(tasks) && accepted == old(accepted)
                && submitters == old(submitters)[j := Returning(-1)]
    {
      var task := submitters[j].task;
      if taskSizeLimit > 0 && |tasks| > taskSizeLimit {
        submitters := submitters[j := Returning(-1)];
        return;
      }
      tasks := tasks + [task];
      accepted := accepted + [task];
      submitters := submitters[j := Pushed];
    }

    method SignalOne(j: nat, woken: Option<nat>)
      requires Enabled(View(), Signal(j, woken))
      modifies this`submitters, this`workers
      ensures View() == Next(old(View()), Signal(j, woken))
      ensures submitters == old(submitters)[j := Returning(0)]
      ensures workers == match woken case None => old(workers) case Some(i) => old(workers)[i := Woken]
    {
      if woken.Some? {
        SignalWakesParked(View(), j, woken);
        workers := workers[woken.value := Woken];
      }
      submitters := submitters[j := Returning(0)];
    }

    /** `execute_thread` from the test of its inner loop to the next unlock. */
    method PickTask(i: nat)
      requires Enabled(View(), Check(i))
      modifies this`workers, this`owner, this`tasks, this`started
      ensures View() == Next(old(View()), Check(i))
      ensures if poolState == STOPPED then workers == old(workers)[i := Leaving] && tasks == old(tasks)
              else if old(tasks) == [] then workers == old(workers)[i := Parked] && owner == Nobody && tasks == []
              else workers == old(workers)[i := Holding(old(tasks)[0])] && tasks == old(tasks)[1..]
    {
      if poolState != STOPPED && |tasks| == 0 {
        owner := Nobody;
        workers := workers[i := Parked];
      } else if poolState == STOPPED {
        workers := workers[i := Leaving];
      } else {
        var task := tasks[0];
        tasks := tasks[1..];
        started := started + [task];
        workers := workers[i := Holding(task)];
      }
    }

    method UnlockWorker(i: nat)
      requires Enabled(View(), Unlock(i))
      modifies this`workers, this`owner
      ensures View() == Next(old(View()), Unlock(i))
      ensures owner == Nobody
      ensures match old(workers)[i]
              case Holding(task) => workers == old(workers)[i := Running(task)]
              case _ => workers == old(workers)[i := Exited]
    {
      owner := Nobody;
      workers := workers[i := if workers[i].Holding? then Running(workers[i].task) else Exited];
    }

    method FinishTask(i: nat)
      requires Enabled(View(), Finish(i))
      modifies this`workers, this`finished
      ensures View() == Next(old(View()), Finish(i))
      ensures workers == old(workers)[i := Locking] && finished == old(finished) + multiset{old(workers)[i].task}
    {
      finished := finished + multiset{workers[i].task};
      workers := workers[i := Locking];
    }

    /** `pthread_cond_broadcast`: every parked worker is released. */
    method BroadcastStop()
      requires Enabled(View(), Broadcast)
      modifies this`workers, this`main
      ensures View() == Next(old(View()), Broadcast)
      ensures |workers| == |old(workers)| && forall k | 0 <= k < |workers| ::
                workers[k] == if old(workers)[k].Parked? then Woken else old(workers)[k]
    {
      var i := 0;
      while i < |workers|
        invariant i <= |workers| == |old(workers)|
        invariant forall k | 0 <= k < |workers| :: workers[k] == if k < i then Unpark(old(workers)[k])
                  else old(workers)[k]
      {
        if workers[i].Parked? {
          workers := workers[i := Woken];
        }
        i := i + 1;
      }
      main := Broadcasted;
      assert workers == UnparkAll(old(workers));
    }

    /** Any of the steps that only move one thread or the mutex. */
    method Move(a: Action)
      requires Enabled(View(), a)
      requires a.Started? || a.Submit? || a.Enter? || a.Return? || a.Lock? || a.WakeSpuriously? || a.Stop?
               || a.LockToStop? || a.SetFlag? || a.UnlockToJoin? || a.Join?
      modifies this`workers, this`submitters, this`main, this`owner, this`poolState
      ensures View() == Next(old(View()), a)
    {
      match a {
        case Started => main := Serving;
        case Submit(j, task) => submitters := submitters[j := Asking(task)];
        case Enter(j) => submitters, owner := submitters[j := Entered(submitters[j].task)], BySubmitter(j);
        case Return(j) => submitters, owner := submitters[j := Idle], Nobody;
        case Lock(i) => workers, owner := workers[i := Checking], ByWorker(i);
        case WakeSpuriously(i) => workers := workers[i := Woken];
        case Stop => main := AskingStop;
        case LockToStop => main, owner := Stopping, ByMain;
        case SetFlag => poolState, main := STOPPED, FlagSet;
        case UnlockToJoin => main, owner := Joining(0), Nobody;
        case Join => main := if main.next < |workers| then Joining(main.next + 1) else Destroyed;
        case _ =>
      }
    }

    /** One step of any thread. */
    method Perform(a: Action)
      requires Inv(View()) && Enabled(View(), a)
      modifies this
      ensures View() == Next(old(View()), a) && Inv(View())
    {
      hide Inv, Enabled, Next;
      InvKept(View(), a);
      if a.Begin? {
        StartThreadPool();
      } else if a.Create? {
        CreateThread();
      } else if a.Push? {
        AddTask(a.j);
      } else if a.Signal? {
        SignalOne(a.j, a.woken);
      } else if a.Check? {
        PickTask(a.i);
      } else if a.Unlock? {
        UnlockWorker(a.i);
      } else if a.Finish? {
        FinishTask(a.i);
      } else if a.Broadcast? {
        BroadcastStop();
      } else {
        Move(a);
      }
    }
  }
}
