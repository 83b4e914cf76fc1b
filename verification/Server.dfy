/** The pool running the service: each worker's task is one call of the service, the thread after
    the workers is the periodic check. */
module Server {
  import opened Prelude
  import opened Folds
  import opened Tables
  import opened Requests
  import opened Interleaving
  import Concurrent
  import Pool
  import Runs

  /** `ops[c]` is the request submitted by the `c`-th call of `enqueue`. */
  datatype System = System(pool: Pool.State, service: Machine, ops: seq<Op>)

  datatype Move =
    | PoolMove(a: Pool.Action)
    | ThreadMove(t: nat)
    | SweepStarts(timeout: int)
    | TimePasses(d: nat)

  function Boot(db: Db, workers: nat, ops: seq<Op>, now: int): System {
    System(Pool.Start(workers, |ops|), Interleaving.Start(db, workers + 1, now), ops)
  }

  /** A worker is busy exactly while its thread is inside a call of the service. */
  predicate Busy(s: System, w: nat) {
    w < |s.pool.workers| && s.pool.workers[w].Running?
  }

  ghost predicate Possible(s: System, m: Move) {
    match m
    case PoolMove(a) => Pool.Enabled(s.pool, a) && !(a.Work? && Busy(s, a.w))
    case ThreadMove(t) => Concurrent.CanRun(s.service, t)
    case SweepStarts(_) =>
      |s.pool.workers| < |s.service.threads| && s.service.threads[|s.pool.workers|].Idle?
    case TimePasses(_) => true
  }

  /** Taking a task from the queue starts its call; returning from the call finishes the task. */
  ghost function Next(s: System, m: Move): System
    requires Possible(s, m)
  {
    match m
    case PoolMove(a) =>
      var pool := Pool.Do(s.pool, a);
      if a.Work? && pool.workers[a.w].Running? && pool.workers[a.w].task < |s.ops| then
        s.(pool := pool, service := Step(s.service, Begin(a.w, s.ops[pool.workers[a.w].task])))
      else s.(pool := pool)
    case ThreadMove(t) =>
      var service := Step(s.service, Run(t));
      if t < |s.pool.workers| && s.service.threads[t].Returning? then
        s.(pool := Pool.DoWork(s.pool, t), service := service)
      else s.(service := service)
    case SweepStarts(timeout) => s.(service := Step(s.service, Begin(|s.pool.workers|, Sweep(timeout))))
    case TimePasses(d) => s.(service := Step(s.service, Tick(d)))
  }

  /** The request a thread is working on. */
  function OpOf(stage: Stage): Option<Op> {
    match stage
    case Idle => None
    case Called(op) => Some(op)
    case Waiting(op) => Some(op)
    case Locked(op) => Some(op)
    case GotCapacity(req, _) => Some(Reserve(req))
    case GotLoad(req, _, _) => Some(Reserve(req))
    case PaidRow(id, amount) => Some(Pay(id, amount))
    case FoundPayment(id, _) => Some(Cancel(id))
    case CancelledRow(id, _) => Some(Cancel(id))
    case Expired(timeout, _) => Some(Sweep(timeout))
    case Grouped(timeout, _, _) => Some(Sweep(timeout))
    case Finishing(op, _) => Some(op)
    case Returning(op, _) => Some(op)
  }

  /** Each worker's thread is idle, or works on the request of the task it took. */
  ghost predicate Linked(s: System) {
    && |s.service.threads| == |s.pool.workers| + 1
    && |s.pool.callers| == |s.ops|
    && (forall w :: 0 <= w < |s.pool.workers| ==>
          OpOf(s.service.threads[w])
          == if s.pool.workers[w].Running? && s.pool.workers[w].task < |s.ops|
             then Some(s.ops[s.pool.workers[w].task]) else None)
    && (forall w :: 0 <= w < |s.pool.workers| && s.pool.workers[w].Running? ==>
                      s.pool.workers[w].task < |s.ops|)
  }

  ghost predicate Healthy(s: System) {
    Pool.Good(s.pool) && Good(s.service) && Linked(s)
  }

  lemma BootHealthy(db: Db, workers: nat, ops: seq<Op>, now: int)
    ensures Healthy(Boot(db, workers, ops, now))
  {
    Pool.StartGood(workers, |ops|);
    StartGood(db, workers + 1, now);
  }

  /** A step of a thread never changes which request it works on, except to finish it. */
  lemma SameRequest(m: Machine, t: nat)
    requires t < |m.threads|
    ensures |RunThread(m, t).threads| == |m.threads|
    ensures forall u :: 0 <= u < |m.threads| && u != t ==> RunThread(m, t).threads[u] == m.threads[u]
    ensures OpOf(RunThread(m, t).threads[t]) == if m.threads[t].Returning? then None else OpOf(m.threads[t])
  {
    hide InsertReservation, InsertTransaction, UpdateStatus, Changes, FirstPayment, LoadFor, CapacityOf, EarlyReply;
  }

  lemma {:induction false} NextHealthy(s: System, m: Move)
    requires Healthy(s) && Possible(s, m)
    ensures Healthy(Next(s, m))
  {
    match m
    case PoolMove(a) =>
      hide Healthy, Possible, Next;
      PoolMoveHealthy(s, a);
    case ThreadMove(t) =>
      hide Healthy, Possible, Next;
      ThreadMoveHealthy(s, t);
    case SweepStarts(timeout) => StepGood(s.service, Begin(|s.pool.workers|, Sweep(timeout)));
    case TimePasses(d) => StepGood(s.service, Tick(d));
  }

  lemma ThreadMoveHealthy(s: System, t: nat)
    requires Healthy(s) && Possible(s, ThreadMove(t))
    ensures Healthy(Next(s, ThreadMove(t)))
  {
    hide RunThread, Good, Pool.Good;
    StepGood(s.service, Run(t));
    SameRequest(s.service, t);
    if t < |s.pool.workers| && s.service.threads[t].Returning? {
      assert OpOf(s.service.threads[t]).Some?;
      assert Pool.Enabled(s.pool, Pool.Work(t));
      Pool.GoodKept(s.pool, Pool.Work(t));
    }
  }

  /** A move of the pool starts at most one task, that of the worker that moves. */
  lemma OthersKeepTasks(pool: Pool.State, a: Pool.Action)
    requires Pool.Enabled(pool, a)
    ensures |Pool.Do(pool, a).workers| == |pool.workers| && |Pool.Do(pool, a).callers| == |pool.callers|
    ensures forall w :: 0 <= w < |pool.workers| && !(a.Work? && a.w == w) ==>
                          && Pool.Do(pool, a).workers[w].Running? == pool.workers[w].Running?
                          && (pool.workers[w].Running? ==> Pool.Do(pool, a).workers[w] == pool.workers[w])
  {
  }

  lemma PoolMoveHealthy(s: System, a: Pool.Action)
    requires Healthy(s) && Possible(s, PoolMove(a))
    ensures Healthy(Next(s, PoolMove(a)))
  {
    Pool.GoodKept(s.pool, a);
    OthersKeepTasks(s.pool, a);
    if a.Work? && Pool.Do(s.pool, a).workers[a.w].Running? {
      TakingHealthy(s, a.w);
    }
  }

  lemma TakingHealthy(s: System, w: nat)
    requires Healthy(s) && Possible(s, PoolMove(Pool.Work(w)))
    requires Pool.DoWork(s.pool, w).workers[w].Running?
    ensures Linked(Next(s, PoolMove(Pool.Work(w)))) && Good(Next(s, PoolMove(Pool.Work(w))).service)
  {
    OthersKeepTasks(s.pool, Pool.Work(w));
    TakenTaskIsKnown(s.pool, w);
    StepGood(s.service, Begin(w, s.ops[Pool.DoWork(s.pool, w).workers[w].task]));
    assert s.service.threads[w].Idle? by {
      assert OpOf(s.service.threads[w]).None?;
    }
  }

  /** A task taken from the queue was submitted by one of the calls. */
  lemma TakenTaskIsKnown(pool: Pool.State, w: nat)
    requires Pool.Good(pool) && w < |pool.workers| && pool.workers[w].Checking?
    requires Pool.DoWork(pool, w).workers[w].Running?
    ensures Pool.DoWork(pool, w).workers[w].task < |pool.callers|
  {
    assert pool.pushed[|pool.popped|] == pool.queue[0];
  }

  // ---------------------------------------------------------------- no thread holds both mutexes

  /** A thread inside the pool's critical section does not own `db_mutex`, and the owner of
      `db_mutex` is not inside the pool's critical section. */
  lemma NeverBothLocks(s: System, w: nat)
    requires Healthy(s) && w < |s.pool.workers|
    ensures !(s.pool.lock == Pool.ByWorker(w) && s.service.lock == Some(w))
  {
    assert OpOf(s.service.threads[w]).Some? <==> !s.service.threads[w].Idle?;
  }

  // ---------------------------------------------------------------- every accepted request is answered

  /** The `enqueue` call was accepted and its task has not returned yet. */
  predicate Unanswered(s: System, c: nat) {
    c < |s.pool.callers| && Pool.Submitted(s.pool.callers[c]) && Count(s.pool.finished, Pool.Is(c)) == 0
  }

  /** An unanswered request is still queued or is being worked on. */
  lemma WhereIsIt(s: System, c: nat)
    requires Healthy(s) && Unanswered(s, c)
    ensures s.pool.queue != [] || exists w :: 0 <= w < |s.pool.workers| && s.pool.workers[w] == Pool.Running(c)
  {
    if s.pool.queue == [] {
      assert s.pool.pushed == s.pool.popped;
      CountZero(s.pool.workers, Pool.Runs(c));
      var w :| 0 <= w < |s.pool.workers| && Pool.Runs(c)(s.pool.workers[w]);
      assert s.pool.workers[w] == Pool.Running(c);
    }
  }

  /** What has been begun and has to be carried on. */
  predicate Due(s: System, m: Move) {
    m.ThreadMove? || (m.PoolMove? && Pool.Due(s.pool, m.a))
  }

  lemma BusyThreadMoves(s: System, w: nat) returns (m: Move)
    requires Healthy(s) && Busy(s, w)
    ensures Possible(s, m) && Due(s, m)
  {
    assert OpOf(s.service.threads[w]).Some?;
    var u := Concurrent.NoDeadlock(s.service, w);
    m := ThreadMove(u);
  }

  /** No deadlock of the whole: while an accepted request is unanswered, something begun can be
      carried on, without a new request, sweep, clock tick or spurious wake-up. */
  lemma UnansweredKeepsMoving(s: System, c: nat) returns (m: Move)
    requires Healthy(s) && |s.pool.workers| > 0 && Unanswered(s, c)
    ensures Possible(s, m) && Due(s, m)
  {
    hide Pool.Due, Pool.Enabled;
    WhereIsIt(s, c);
    if s.pool.queue == [] {
      var w :| 0 <= w < |s.pool.workers| && s.pool.workers[w] == Pool.Running(c);
      m := BusyThreadMoves(s, w);
    } else {
      var a := Pool.QueueKeepsMoving(s.pool);
      if a.Work? && Busy(s, a.w) {
        m := BusyThreadMoves(s, a.w);
      } else {
        m := PoolMove(a);
      }
    }
  }

  /** Every move but a new sweep, a clock tick and a spurious wake-up. */
  predicate OwnMove(m: Move) {
    (m.PoolMove? && !m.a.Spurious?) || m.ThreadMove?
  }

  /** What is left to do: the steps of the pool, each of which may begin a call of at most seven
      steps, and the steps of the calls in progress. */
  function Potential(s: System): nat {
    8 * Pool.Remaining(s.pool) + Total(s.service.threads, Concurrent.Rank)
  }

  /** What a move may add: a sweep has seven steps, a spurious wake-up three steps of the pool. */
  function Adds(m: Move): nat {
    match m
    case SweepStarts(_) => 7
    case PoolMove(Spurious(_)) => 24
    case _ => 0
  }

  lemma BeginAdds(m: Machine, t: nat, op: Op)
    ensures Total(Step(m, Begin(t, op)).threads, Concurrent.Rank) <= Total(m.threads, Concurrent.Rank) + 7
  {
    if t < |m.threads| && m.threads[t].Idle? {
      TotalUpdate(m.threads, t, Called(op), Concurrent.Rank);
    }
  }

  /** Every own move uses up part of the potential. */
  lemma MoveUsesUp(s: System, m: Move)
    requires Healthy(s) && Possible(s, m)
    ensures Potential(Next(s, m)) + (if OwnMove(m) then 1 else 0) <= Potential(s) + Adds(m)
  {
    hide Step, Pool.DoWork, Pool.Do, Pool.Remaining, Pool.Good, Good, Concurrent.Rank;
    match m
    case PoolMove(a) => PoolMoveUsesUp(s, a);
    case ThreadMove(t) =>
      Concurrent.RunDecreases(s.service, t);
      if t < |s.pool.workers| && s.service.threads[t].Returning? {
        ReturningUsesUp(s, t);
      }
    case SweepStarts(timeout) => BeginAdds(s.service, |s.pool.workers|, Sweep(timeout));
    case TimePasses(d) => TickKeepsThreads(s.service, d);
  }

  lemma TickKeepsThreads(m: Machine, d: nat)
    ensures Step(m, Tick(d)).threads == m.threads
  {
  }

  lemma ReturningUsesUp(s: System, t: nat)
    requires Healthy(s) && t < |s.pool.workers| && s.service.threads[t].Returning?
    ensures Pool.Remaining(Pool.DoWork(s.pool, t)) < Pool.Remaining(s.pool)
  {
    assert OpOf(s.service.threads[t]).Some?;
    assert Pool.Enabled(s.pool, Pool.Work(t));
    Pool.ActionsUseUp(s.pool, Pool.Work(t));
  }

  lemma PoolMoveUsesUp(s: System, a: Pool.Action)
    requires Healthy(s) && Possible(s, PoolMove(a))
    ensures Potential(Next(s, PoolMove(a))) + (if a.Spurious? then 0 else 1)
         <= Potential(s) + Adds(PoolMove(a))
  {
    hide Step, Pool.DoWork, Pool.Do, Pool.Remaining, Healthy, Concurrent.Rank;
    if a.Spurious? {
      Pool.SpuriousAdds(s.pool, a.w);
    } else {
      Pool.ActionsUseUp(s.pool, a);
      Pool.SizesKept(s.pool, a);
      var pool := Pool.Do(s.pool, a);
      if a.Work? && pool.workers[a.w].Running? && pool.workers[a.w].task < |s.ops| {
        BeginAdds(s.service, a.w, s.ops[pool.workers[a.w].task]);
      }
    }
  }

  // ---------------------------------------------------------------- whole runs of the server

  ghost function SystemAfter(s: System, moves: seq<Move>): System {
    if moves == [] then s
    else
      var before := SystemAfter(s, moves[..|moves| - 1]);
      if Possible(before, moves[|moves| - 1]) then Next(before, moves[|moves| - 1]) else before
  }

  /** What the service's threads do in one move of the system. */
  ghost function ChoicesOf(s: System, m: Move): Schedule {
    if !Possible(s, m) then []
    else
      match m
      case PoolMove(a) =>
        var pool := Pool.Do(s.pool, a);
        if a.Work? && pool.workers[a.w].Running? && pool.workers[a.w].task < |s.ops|
        then [Begin(a.w, s.ops[pool.workers[a.w].task])] else []
      case ThreadMove(t) => [Run(t)]
      case SweepStarts(timeout) => [Begin(|s.pool.workers|, Sweep(timeout))]
      case TimePasses(d) => [Tick(d)]
  }

  ghost function ScheduleOf(s: System, moves: seq<Move>): Schedule {
    if moves == [] then []
    else ScheduleOf(s, moves[..|moves| - 1])
         + ChoicesOf(SystemAfter(s, moves[..|moves| - 1]), moves[|moves| - 1])
  }

  lemma OneMove(s: System, m: Move)
    ensures (if Possible(s, m) then Next(s, m) else s).service == Reached(s.service, ChoicesOf(s, m))
  {
    hide Step, Pool.Do, Pool.Enabled;
    if ChoicesOf(s, m) != [] {
      assert ChoicesOf(s, m)[..0] == [];
    }
  }

  /** Behind every run of the server stands a schedule of the service, so all that holds for every
      schedule holds for the server, and the invariants of pool and service hold throughout. */
  lemma {:induction false} ServerRuns(s: System, moves: seq<Move>)
    requires Healthy(s)
    ensures Healthy(SystemAfter(s, moves))
    ensures SystemAfter(s, moves).service == Reached(s.service, ScheduleOf(s, moves))
  {
    if moves != [] {
      hide Step, Next, Possible, Healthy, ChoicesOf;
      var n := |moves| - 1;
      var before := SystemAfter(s, moves[..n]);
      ServerRuns(s, moves[..n]);
      if Possible(before, moves[n]) {
        NextHealthy(before, moves[n]);
      }
      OneMove(before, moves[n]);
      ReachedConcat(s.service, ScheduleOf(s, moves[..n]), ChoicesOf(before, moves[n]));
    }
  }

  // ---------------------------------------------------------------- every accepted request is answered

  /** How many own moves a run makes. */
  ghost function OwnMoves(s: System, moves: seq<Move>): nat {
    if moves == [] then 0
    else
      var n := |moves| - 1;
      OwnMoves(s, moves[..n])
      + if Possible(SystemAfter(s, moves[..n]), moves[n]) && OwnMove(moves[n]) then 1 else 0
  }

  /** A run makes no more own moves than there was to do at its start, plus what its sweeps and
      spurious wake-ups add. */
  lemma {:induction false} MovesTerminate(s: System, moves: seq<Move>)
    requires Healthy(s)
    ensures OwnMoves(s, moves) + Potential(SystemAfter(s, moves)) <= Potential(s) + Total(moves, Adds)
  {
    if moves != [] {
      hide Next, Possible, Healthy, Potential, OwnMove, Adds;
      var n := |moves| - 1;
      MovesTerminate(s, moves[..n]);
      ServerRuns(s, moves[..n]);
      if Possible(SystemAfter(s, moves[..n]), moves[n]) {
        MoveUsesUp(SystemAfter(s, moves[..n]), moves[n]);
      }
    }
  }

  lemma PoolSizes(s: System, m: Move)
    requires Possible(s, m)
    ensures |Next(s, m).pool.workers| == |s.pool.workers| && |Next(s, m).pool.callers| == |s.pool.callers|
    ensures Next(s, m).ops == s.ops
  {
    hide Step, Pool.Do, Pool.DoWork, Pool.Enabled;
    match m
    case PoolMove(a) => Pool.SizesKept(s.pool, a);
    case ThreadMove(t) =>
      if t < |s.pool.workers| {
        WorkSizes(s.pool, t);
      }
    case _ =>
  }

  lemma WorkSizes(pool: Pool.State, w: nat)
    requires w < |pool.workers|
    ensures |Pool.DoWork(pool, w).workers| == |pool.workers| && |Pool.DoWork(pool, w).callers| == |pool.callers|
  {
  }

  lemma {:induction false} RunSizes(s: System, moves: seq<Move>)
    ensures |SystemAfter(s, moves).pool.workers| == |s.pool.workers|
    ensures |SystemAfter(s, moves).pool.callers| == |s.pool.callers|
    ensures SystemAfter(s, moves).ops == s.ops
  {
    if moves != [] {
      hide Next, Possible;
      var n := |moves| - 1;
      RunSizes(s, moves[..n]);
      if Possible(SystemAfter(s, moves[..n]), moves[n]) {
        PoolSizes(SystemAfter(s, moves[..n]), moves[n]);
      }
    }
  }

  /** Nothing keeps a request from being submitted: whenever `queue_mutex` is free its `enqueue` may
      begin, and goes as the pool's does. */
  lemma RequestMaySubmit(s: System, c: nat)
    requires c < |s.pool.callers| && s.pool.callers[c] == Pool.Ready && s.pool.lock == Pool.Free
    ensures var first := Next(s, PoolMove(Pool.Call(c, 0)));
            && Possible(s, PoolMove(Pool.Call(c, 0))) && Possible(first, PoolMove(Pool.Call(c, 0)))
            && Next(first, PoolMove(Pool.Call(c, 0)))
               == s.(pool := Pool.EndOf(s.pool, [Pool.Call(c, 0), Pool.Call(c, 0)]))
  {
    hide Pool.Do, Pool.Enabled, Pool.EndOf, Pool.IsRun;
    Pool.EnqueueBegins(s.pool, c);
    Pool.EnqueueEnds(Pool.Do(s.pool, Pool.Call(c, 0)), c);
    Pool.TwoActions(s.pool, Pool.Call(c, 0), Pool.Call(c, 0));
  }

  /** The pool of the server moves as the pool does by itself, but for a worker inside a call. */
  lemma PoolMovesFreely(s: System, a: Pool.Action)
    requires Pool.Enabled(s.pool, a) && (a.Work? ==> !s.pool.workers[a.w].Running?)
    ensures Possible(s, PoolMove(a)) && Next(s, PoolMove(a)).pool == Pool.Do(s.pool, a)
  {
  }

  /** Time passes at any moment, for the service's clock and nothing else. */
  lemma TimeMayPass(s: System, d: nat)
    ensures Possible(s, TimePasses(d))
    ensures Next(s, TimePasses(d)) == s.(service := s.service.(now := s.service.now + d))
  {
  }

  /** Nor does anything keep a round of the check from starting once the last one has ended. */
  lemma SweepMayStart(s: System, timeout: int)
    requires Healthy(s) && s.service.threads[|s.pool.workers|].Idle?
    ensures Possible(s, SweepStarts(timeout))
    ensures Next(s, SweepStarts(timeout)).service
         == s.service.(threads := s.service.threads[|s.pool.workers| := Called(Sweep(timeout))])
  {
  }

  /** A run that goes on until nothing begun can be carried on gets there within a bounded number of
      own moves, and then every accepted request has been answered, once; unless the server is being
      shut down, these are all that were submitted. */
  lemma EveryRequestAnswered(s: System, moves: seq<Move>, c: nat)
    requires Healthy(s) && |s.pool.workers| > 0 && c < |s.pool.callers|
    requires forall m :: Due(SystemAfter(s, moves), m) ==> !Possible(SystemAfter(s, moves), m)
    ensures OwnMoves(s, moves) <= Potential(s) + Total(moves, Adds)
    ensures c < |SystemAfter(s, moves).pool.callers|
    ensures Count(SystemAfter(s, moves).pool.finished, Pool.Is(c))
         == if Pool.Submitted(SystemAfter(s, moves).pool.callers[c]) then 1 else 0
    ensures SystemAfter(s, moves).pool.destructor.Alive? ==>
              Count(SystemAfter(s, moves).pool.finished, Pool.Is(c))
              == if SystemAfter(s, moves).pool.callers[c] == Pool.Ready then 0 else 1
  {
    hide Potential, Adds, Possible, Due;
    MovesTerminate(s, moves);
    ServerRuns(s, moves);
    RunSizes(s, moves);
    var end := SystemAfter(s, moves);
    Pool.FinishedOnce(end.pool, c);
    if Unanswered(end, c) {
      var m := UnansweredKeepsMoving(end, c);
    }
    if end.pool.callers[c] == Pool.Pushing {
      PushingCanMove(end, c);
    }
  }

  lemma PushingCanMove(s: System, c: nat)
    requires c < |s.pool.callers| && s.pool.callers[c] == Pool.Pushing
    ensures Possible(s, PoolMove(Pool.Call(c, 0))) && Due(s, PoolMove(Pool.Call(c, 0)))
  {
  }

  // ---------------------------------------------------------------- ... with its own effect

  /** A task that returned: which one, on which worker, and the answer it gave. */
  datatype Completion = Completion(task: nat, worker: nat, answer: Answer)

  ghost function Completed(s: System, m: Move): seq<Completion> {
    if m.ThreadMove? && Possible(s, m) && Busy(s, m.t) && s.service.threads[m.t].Returning?
    then [Completion(s.pool.workers[m.t].task, m.t,
                     Answer(s.service.threads[m.t].op, s.service.threads[m.t].reply))]
    else []
  }

  ghost function Completions(s: System, moves: seq<Move>): seq<Completion> {
    if moves == [] then []
    else
      var n := |moves| - 1;
      Completions(s, moves[..n]) + Completed(SystemAfter(s, moves[..n]), moves[n])
  }

  function TasksOf(done: seq<Completion>): seq<nat> {
    seq(|done|, i requires 0 <= i < |done| => done[i].task)
  }

  /** The answers given on one worker, in order. */
  function AnswersOn(done: seq<Completion>, w: nat): seq<Answer> {
    if done == [] then []
    else
      var n := |done| - 1;
      AnswersOn(done[..n], w) + if done[n].worker == w then [done[n].answer] else []
  }

  /** A task that returns gives the answer to the request it was submitted with. */
  ghost predicate OwnRequest(ops: seq<Op>, done: Completion) {
    done.task < |ops| && done.answer.op == ops[done.task]
  }

  /** All of these are such answers, given by workers of the pool. */
  ghost predicate OwnRequests(s: System, done: seq<Completion>) {
    forall i :: 0 <= i < |done| ==> OwnRequest(s.ops, done[i]) && done[i].worker < |s.pool.workers|
  }

  /** The answer thread `w` gives in one move. */
  ghost function MoveEnds(s: System, m: Move, w: nat): seq<Answer> {
    if ChoicesOf(s, m) == [] then [] else Ends(s.service, ChoicesOf(s, m)[0], w)
  }

  lemma PoolMoveFinishesNothing(pool: Pool.State, a: Pool.Action)
    requires Pool.Enabled(pool, a) && !(a.Work? && pool.workers[a.w].Running?)
    ensures Pool.Do(pool, a).finished == pool.finished
  {
  }

  /** One move: the tasks that return are those recorded as finished, with the answers of the
      service's threads to the requests they were submitted with. */
  lemma AnswerToOwnRequest(s: System, m: Move)
    requires Healthy(s) && Possible(s, m)
    ensures Next(s, m).pool.finished == s.pool.finished + TasksOf(Completed(s, m))
    ensures forall w :: 0 <= w < |s.pool.workers| ==> AnswersOn(Completed(s, m), w) == MoveEnds(s, m, w)
    ensures OwnRequests(s, Completed(s, m))
  {
    if m.ThreadMove? {
      hide Healthy, Possible, Next, Completed, OwnRequests;
      ThreadMoveAnswers(s, m.t);
    } else {
      hide Step, Pool.Do, Healthy;
      if m.PoolMove? {
        PoolMoveFinishesNothing(s.pool, m.a);
      }
    }
  }

  lemma ThreadMoveAnswers(s: System, t: nat)
    requires Healthy(s) && Possible(s, ThreadMove(t))
    ensures var done := Completed(s, ThreadMove(t));
            && Next(s, ThreadMove(t)).pool.finished == s.pool.finished + TasksOf(done)
            && (forall w :: 0 <= w < |s.pool.workers| ==> AnswersOn(done, w) == MoveEnds(s, ThreadMove(t), w))
            && OwnRequests(s, done)
  {
    hide Step, Good, Pool.Good;
    assert t < |s.pool.workers| ==> (OpOf(s.service.threads[t]).Some? <==> Busy(s, t));
    if t < |s.pool.workers| && s.service.threads[t].Returning? {
      assert Completed(s, ThreadMove(t))[..0] == [];
    }
  }

  lemma AnswersOnConcat(done: seq<Completion>, more: seq<Completion>, w: nat)
    requires |more| <= 1
    ensures AnswersOn(done + more, w) == AnswersOn(done, w) + AnswersOn(more, w)
    ensures TasksOf(done + more) == TasksOf(done) + TasksOf(more)
  {
    if more == [] {
      assert done + more == done;
    } else {
      assert (done + more)[..|done|] == done;
    }
  }

  lemma AnswersGrow(s: System, m: Machine, sched: Schedule, move: Move, w: nat)
    requires s.service == Reached(m, sched)
    ensures Answers(m, sched + ChoicesOf(s, move), w) == Answers(m, sched, w) + MoveEnds(s, move, w)
  {
    hide Pool.Do, Possible, Ends;
    if ChoicesOf(s, move) == [] {
      assert sched + ChoicesOf(s, move) == sched;
    } else {
      assert (sched + ChoicesOf(s, move))[..|sched|] == sched;
    }
  }

  /** Over a whole run: the finished tasks are the completions, in order, and each completion
      answers the request of its own task. */
  lemma {:induction false} CompletionsAreTasks(s: System, moves: seq<Move>)
    requires Healthy(s) && s.pool.finished == []
    ensures TasksOf(Completions(s, moves)) == SystemAfter(s, moves).pool.finished
    ensures OwnRequests(s, Completions(s, moves))
  {
    if moves == [] {
      assert TasksOf([]) == [];
    } else {
      hide Next, Possible, Healthy, ChoicesOf, Completed, AnswersOn, TasksOf, OwnRequests, MoveEnds;
      var n := |moves| - 1;
      var before := SystemAfter(s, moves[..n]);
      CompletionsAreTasks(s, moves[..n]);
      ServerRuns(s, moves[..n]);
      RunSizes(s, moves[..n]);
      CompletedAtMostOne(before, moves[n]);
      AnswersOnConcat(Completions(s, moves[..n]), Completed(before, moves[n]), 0);
      if Possible(before, moves[n]) {
        AnswerToOwnRequest(before, moves[n]);
      } else {
        ImpossibleMove(before, moves[n], 0);
      }
      OwnRequestsConcat(s, before, Completions(s, moves[..n]), Completed(before, moves[n]));
    }
  }

  lemma OwnRequestsConcat(s: System, s': System, done: seq<Completion>, more: seq<Completion>)
    requires OwnRequests(s, done) && OwnRequests(s', more)
    requires s.ops == s'.ops && |s.pool.workers| == |s'.pool.workers|
    ensures OwnRequests(s, done + more)
  {
    hide OwnRequest;
  }

  /** The completions of one worker are the answers of its thread in the schedule of the service. */
  lemma {:induction false} CompletionsAreAnswers(s: System, moves: seq<Move>, w: nat)
    requires Healthy(s) && w < |s.pool.workers|
    ensures AnswersOn(Completions(s, moves), w) == Answers(s.service, ScheduleOf(s, moves), w)
  {
    if moves != [] {
      hide Next, Possible, Healthy, ChoicesOf, Completed, AnswersOn, TasksOf, OwnRequests, MoveEnds, Answers;
      var n := |moves| - 1;
      var before := SystemAfter(s, moves[..n]);
      CompletionsAreAnswers(s, moves[..n], w);
      ServerRuns(s, moves[..n]);
      RunSizes(s, moves[..n]);
      CompletedAtMostOne(before, moves[n]);
      AnswersOnConcat(Completions(s, moves[..n]), Completed(before, moves[n]), w);
      AnswersGrow(before, s.service, ScheduleOf(s, moves[..n]), moves[n], w);
      if Possible(before, moves[n]) {
        AnswerToOwnRequest(before, moves[n]);
      } else {
        ImpossibleMove(before, moves[n], w);
      }
    }
  }

  lemma CompletedAtMostOne(s: System, m: Move)
    ensures |Completed(s, m)| <= 1
  {
  }

  lemma ImpossibleMove(s: System, m: Move, w: nat)
    requires !Possible(s, m)
    ensures Completed(s, m) == [] && MoveEnds(s, m, w) == [] && AnswersOn([], w) == [] && TasksOf([]) == []
    ensures OwnRequests(s, [])
  {
  }

  lemma {:induction false} AnswersOnAt(done: seq<Completion>, j: nat)
    requires j < |done|
    ensures |AnswersOn(done[..j], done[j].worker)| < |AnswersOn(done, done[j].worker)|
    ensures AnswersOn(done, done[j].worker)[|AnswersOn(done[..j], done[j].worker)|] == done[j].answer
  {
    var n := |done| - 1;
    if j < n {
      AnswersOnAt(done[..n], j);
      assert done[..n][..j] == done[..j];
    }
  }

  /** Every finished task was answered with the effect of its own request: its answer is entry `a`
      of the log, put there by its worker's call with the same number; and no task finishes twice. */
  lemma AnsweredWithItsEffect(s: System, moves: seq<Move>, j: nat) returns (a: nat)
    requires Healthy(s) && s.pool.finished == [] && j < |Completions(s, moves)|
    requires forall t :: 0 <= t < |s.service.threads| ==> s.service.threads[t].Idle?
    ensures var done, log := Completions(s, moves), CommitLog(s.service, ScheduleOf(s, moves));
            var who := Committers(s.service, ScheduleOf(s, moves));
            && OwnRequest(s.ops, done[j]) && |who| == |log|
            && IsEffect(log, who, done[j].worker, |AnswersOn(done[..j], done[j].worker)|, a)
            && done[j].answer == Answer(log[a].op, log[a].reply)
            && Count(TasksOf(done), Pool.Is(done[j].task)) == 1
  {
    hide AnswersOn, ScheduleOf, Reached, CommitLog, Committers, Projection, PendingAnswer, PendingOp, OwnRequest;
    var done, sched := Completions(s, moves), ScheduleOf(s, moves);
    var w := done[j].worker;
    CompletionsAreTasks(s, moves);
    CompletionsAreAnswers(s, moves, w);
    CallsMatchAnswers(s.service, sched, w);
    LogIsOneOrder(s.service, sched, w);
    AnswersOnAt(done, j);
    a := EffectAt(CommitLog(s.service, sched), Committers(s.service, sched), w, |AnswersOn(done[..j], w)|);
    FinishesOnce(s, moves, j);
  }

  lemma FinishesOnce(s: System, moves: seq<Move>, j: nat)
    requires Healthy(s) && s.pool.finished == [] && j < |Completions(s, moves)|
    ensures Count(TasksOf(Completions(s, moves)), Pool.Is(Completions(s, moves)[j].task)) == 1
  {
    hide Pool.Exclusive, Pool.NoLostWakeup, Pool.Shutdown, Pool.Admission, Pool.Bookkeeping;
    var done := Completions(s, moves);
    CompletionsAreTasks(s, moves);
    ServerRuns(s, moves);
    RunSizes(s, moves);
    assert OwnRequest(s.ops, done[j]);
    Pool.FinishedOnce(SystemAfter(s, moves).pool, done[j].task);
    CountZero(TasksOf(done), Pool.Is(done[j].task));
    assert Pool.Is(done[j].task)(TasksOf(done)[j]);
  }

  /** The server started on empty tables: whenever `db_mutex` is free, the ledger, the capacities
      and the opening hours are respected. */
  lemma {:induction false} ServerIsSafe(db: Db, workers: nat, ops: seq<Op>, now: int, moves: seq<Move>)
    requires Fresh(db)
    requires SystemAfter(Boot(db, workers, ops, now), moves).service.lock.None?
    ensures Runs.Safe(SystemAfter(Boot(db, workers, ops, now), moves).service.db)
  {
    BootHealthy(db, workers, ops, now);
    ServerRuns(Boot(db, workers, ops, now), moves);
    Concurrent.SafeUnderConcurrency(db, workers + 1, now, ScheduleOf(Boot(db, workers, ops, now), moves));
  }
}
