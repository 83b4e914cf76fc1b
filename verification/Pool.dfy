/** The thread pool as a step machine (thread_pool.h): workers, callers of `enqueue` and the
    destructor, one mutex, one condition variable with its wait set and spurious wake-ups. */
module Pool {
  import opened Folds

  /** `Checking` is the worker's critical section; `notified` tells whether it came out of the
      wait set. A task is named by the `enqueue` call that submits it. */
  datatype Worker = Wants | Parked | Woken | Checking(notified: bool) | Running(task: nat) | Exited

  datatype Caller = Ready | Pushing | Notifying | Done | Threw

  datatype Destructor = Alive | Stopping | NotifyAll | Joining(next: nat) | Destroyed

  datatype Owner = Free | ByWorker(w: nat) | ByCaller(c: nat) | ByDestructor

  /** `pushed`, `popped` and `finished` record the tasks in the order these things happened. */
  datatype State = State(
    queue: seq<nat>, stop: bool, lock: Owner,
    workers: seq<Worker>, callers: seq<Caller>, destructor: Destructor,
    pushed: seq<nat>, popped: seq<nat>, finished: seq<nat>)

  function Start(workers: nat, callers: nat): State {
    State([], false, Free, seq(workers, _ => Wants), seq(callers, _ => Ready), Alive, [], [], [])
  }

  // ---------------------------------------------------------------- steps

  datatype Action = Work(w: nat) | Spurious(w: nat) | Call(c: nat, wake: nat) | Destroy

  datatype Outcome = Park | Exit | Take(task: nat, rest: seq<nat>)

  /** What a worker does under the lock: the wait predicate, then the exit test, then the pop. */
  function Check(queue: seq<nat>, stop: bool): Outcome {
    if !(stop || queue != []) then Park
    else if stop && queue == [] then Exit
    else Take(queue[0], queue[1..])
  }

  ghost predicate SomeoneParked(s: State) {
    exists w :: 0 <= w < |s.workers| && s.workers[w] == Parked
  }

  /** Blocked agents have no enabled action: parked workers wait for a notification, the others
      for the mutex, the destructor for the workers it joins. */
  ghost predicate Enabled(s: State, a: Action) {
    match a
    case Work(w) =>
      w < |s.workers| && (
        match s.workers[w]
        case Wants => s.lock == Free
        case Woken => s.lock == Free
        case Checking(_) => true
        case Running(_) => true
        case _ => false)
    case Spurious(w) => w < |s.workers| && s.workers[w] == Parked
    case Call(c, wake) =>
      c < |s.callers| && (
        match s.callers[c]
        case Ready => s.lock == Free
        case Pushing => true
        case Notifying => SomeoneParked(s) ==> wake < |s.workers| && s.workers[wake] == Parked
        case _ => false)
    case Destroy =>
      match s.destructor
      case Alive => s.lock == Free
      case Stopping => true
      case NotifyAll => true
      case Joining(i) => i < |s.workers| ==> s.workers[i] == Exited
      case Destroyed => false
  }

  function SetWorker(s: State, w: nat, v: Worker): State
    requires w < |s.workers|
  {
    s.(workers := s.workers[w := v])
  }

  function SetCaller(s: State, c: nat, v: Caller): State
    requires c < |s.callers|
  {
    s.(callers := s.callers[c := v])
  }

  function DoWork(s: State, w: nat): State
    requires w < |s.workers|
  {
    match s.workers[w]
    case Wants => SetWorker(s, w, Checking(false)).(lock := ByWorker(w))
    case Woken => SetWorker(s, w, Checking(true)).(lock := ByWorker(w))
    case Checking(_) =>
      (match Check(s.queue, s.stop)
       case Park => SetWorker(s, w, Parked).(lock := Free)
       case Exit => SetWorker(s, w, Exited).(lock := Free)
       case Take(task, rest) =>
         SetWorker(s, w, Running(task)).(lock := Free, queue := rest, popped := s.popped + [task]))
    case Running(task) => SetWorker(s, w, Wants).(finished := s.finished + [task])
    case _ => s
  }

  function DoCall(s: State, c: nat, wake: nat): State
    requires c < |s.callers|
  {
    match s.callers[c]
    case Ready => SetCaller(s, c, Pushing).(lock := ByCaller(c))
    case Pushing =>
      if s.stop then SetCaller(s, c, Threw).(lock := Free)
      else SetCaller(s, c, Notifying).(lock := Free, queue := s.queue + [c], pushed := s.pushed + [c])
    case Notifying =>
      if wake < |s.workers| && s.workers[wake] == Parked
      then SetCaller(SetWorker(s, wake, Woken), c, Done)
      else SetCaller(s, c, Done)
    case _ => s
  }

  /** `notify_all`: everyone leaves the wait set. */
  function WakeAll(workers: seq<Worker>): (woken: seq<Worker>)
    ensures |woken| == |workers|
    ensures forall w :: 0 <= w < |workers| ==>
                          woken[w] == if workers[w] == Parked then Woken else workers[w]
  {
    seq(|workers|, w requires 0 <= w < |workers| => if workers[w] == Parked then Woken else workers[w])
  }

  function DoDestroy(s: State): State {
    match s.destructor
    case Alive => s.(destructor := Stopping, lock := ByDestructor)
    case Stopping => s.(destructor := NotifyAll, lock := Free, stop := true)
    case NotifyAll => s.(destructor := Joining(0), workers := WakeAll(s.workers))
    case Joining(i) => s.(destructor := if i < |s.workers| then Joining(i + 1) else Destroyed)
    case Destroyed => s
  }

  ghost function Do(s: State, a: Action): State
    requires Enabled(s, a)
  {
    match a
    case Work(w) => DoWork(s, w)
    case Spurious(w) => SetWorker(s, w, Woken)
    case Call(c, wake) => DoCall(s, c, wake)
    case Destroy => DoDestroy(s)
  }

  // ---------------------------------------------------------------- invariants

  /** The mutex is held exactly by the agent inside its critical section. */
  ghost predicate Exclusive(s: State) {
    && (forall w :: 0 <= w < |s.workers| ==> (s.workers[w].Checking? <==> s.lock == ByWorker(w)))
    && (forall c :: 0 <= c < |s.callers| ==> (s.callers[c].Pushing? <==> s.lock == ByCaller(c)))
    && (s.destructor.Stopping? <==> s.lock == ByDestructor)
    && (s.lock.ByWorker? ==> s.lock.w < |s.workers|)
    && (s.lock.ByCaller? ==> s.lock.c < |s.callers|)
  }

  function IsNotifying(): Caller -> bool {
    (c: Caller) => c == Notifying
  }

  /** Woken by a notification (or spuriously) and not yet done rechecking the predicate. */
  function OnItsWay(): Worker -> bool {
    (w: Worker) => w == Woken || w == Checking(true)
  }

  /** While anyone is parked, each queued task has a notification on its way. */
  ghost predicate NoLostWakeup(s: State) {
    SomeoneParked(s) ==> |s.queue| <= Count(s.callers, IsNotifying()) + Count(s.workers, OnItsWay())
  }

  ghost predicate Shutdown(s: State) {
    && (s.stop <==> s.destructor.NotifyAll? || s.destructor.Joining? || s.destructor.Destroyed?)
    && (s.stop && SomeoneParked(s) ==> s.destructor.NotifyAll?)
    && (forall w :: 0 <= w < |s.workers| && s.workers[w] == Exited ==> s.stop && s.queue == [])
    && (s.destructor.Joining? ==>
          s.destructor.next <= |s.workers| && forall w :: 0 <= w < s.destructor.next ==> s.workers[w] == Exited)
    && (s.destructor.Destroyed? ==> forall w :: 0 <= w < |s.workers| ==> s.workers[w] == Exited)
  }

  function Is(task: nat): nat -> bool {
    (t: nat) => t == task
  }

  function Runs(task: nat): Worker -> bool {
    (w: Worker) => w == Running(task)
  }

  /** Submitted means past the push: the call did not throw. */
  predicate Submitted(c: Caller) {
    c == Notifying || c == Done
  }

  /** First in, first out; each accepted call pushed its task once; each popped task is running
      on one worker or finished. */
  ghost predicate Bookkeeping(s: State) {
    && s.pushed == s.popped + s.queue
    && (forall i :: 0 <= i < |s.pushed| ==> s.pushed[i] < |s.callers|)
    && (forall c :: 0 <= c < |s.callers| ==>
                      Count(s.pushed, Is(c)) == if Submitted(s.callers[c]) then 1 else 0)
    && (forall c: nat :: Count(s.popped, Is(c)) == Count(s.finished, Is(c)) + Count(s.workers, Runs(c)))
  }

  /** A call of `enqueue` throws only when the pool has been stopped. */
  ghost predicate Admission(s: State) {
    forall c :: 0 <= c < |s.callers| && s.callers[c] == Threw ==> s.stop
  }

  ghost predicate Good(s: State) {
    Exclusive(s) && NoLostWakeup(s) && Shutdown(s) && Bookkeeping(s) && Admission(s)
  }

  lemma StartGood(workers: nat, callers: nat)
    ensures Good(Start(workers, callers))
  {
    var s := Start(workers, callers);
    forall c: nat ensures Count(s.workers, Runs(c)) == 0 {
      CountZero(s.workers, Runs(c));
    }
  }

  // ---------------------------------------------------------------- preservation, one invariant at a time

  lemma ExclusiveKept(s: State, a: Action)
    requires Exclusive(s) && Enabled(s, a)
    ensures Exclusive(Do(s, a))
  {
    hide Exclusive, DoWork, DoCall, DoDestroy;
    match a
    case Work(w) => WorkExclusive(s, w);
    case Spurious(w) => SpuriousExclusive(s, w);
    case Call(c, wake) => CallExclusive(s, c, wake);
    case Destroy => DestroyExclusive(s);
  }

  lemma WorkExclusive(s: State, w: nat)
    requires Exclusive(s) && Enabled(s, Work(w))
    ensures Exclusive(DoWork(s, w))
  {
    hide Check;
  }

  lemma SpuriousExclusive(s: State, w: nat)
    requires Exclusive(s) && w < |s.workers| && s.workers[w] == Parked
    ensures Exclusive(SetWorker(s, w, Woken))
  {
  }

  lemma CallExclusive(s: State, c: nat, wake: nat)
    requires Exclusive(s) && Enabled(s, Call(c, wake))
    ensures Exclusive(DoCall(s, c, wake))
  {
    if s.callers[c] == Notifying && wake < |s.workers| && s.workers[wake] == Parked {
      SpuriousExclusive(s, wake);
    }
  }

  lemma DestroyExclusive(s: State)
    requires Exclusive(s) && Enabled(s, Destroy)
    ensures Exclusive(DoDestroy(s))
  {
  }

  lemma ShutdownKept(s: State, a: Action)
    requires Exclusive(s) && Shutdown(s) && Enabled(s, a)
    ensures Shutdown(Do(s, a))
  {
    match a
    case Work(w) => WorkKeepsShutdown(s, w);
    case Spurious(w) =>
    case Call(c, wake) => CallKeepsShutdown(s, c, wake);
    case Destroy => DestroyKeepsShutdown(s);
  }

  lemma WorkKeepsShutdown(s: State, w: nat)
    requires Shutdown(s) && Enabled(s, Work(w))
    ensures Shutdown(DoWork(s, w))
  {
  }

  lemma CallKeepsShutdown(s: State, c: nat, wake: nat)
    requires Shutdown(s) && Enabled(s, Call(c, wake))
    ensures Shutdown(DoCall(s, c, wake))
  {
  }

  lemma DestroyKeepsShutdown(s: State)
    requires Shutdown(s) && Enabled(s, Destroy)
    ensures Shutdown(DoDestroy(s))
  {
  }

  lemma NoLostWakeupKept(s: State, a: Action)
    requires NoLostWakeup(s) && Enabled(s, a)
    ensures NoLostWakeup(Do(s, a))
  {
    hide DoWork, DoCall, NoLostWakeup;
    match a
    case Work(w) => WorkWakeups(s, w);
    case Spurious(w) => WakingOne(s, w);
    case Call(c, wake) => CallWakeups(s, c, wake);
    case Destroy => DestroyWakeups(s);
  }

  /** A worker parks on an empty queue only; one on its way either takes a task or finds none. */
  lemma WorkWakeups(s: State, w: nat)
    requires NoLostWakeup(s) && Enabled(s, Work(w))
    ensures NoLostWakeup(DoWork(s, w))
  {
    var s' := DoWork(s, w);
    CountUpdate(s.workers, w, s'.workers[w], OnItsWay());
    if SomeoneParked(s') && s'.workers[w] != Parked {
      StillParked(s, s', w);
    }
  }

  /** Leaving the wait set puts a worker on its way. */
  lemma WakingOne(s: State, w: nat)
    requires NoLostWakeup(s) && w < |s.workers| && s.workers[w] == Parked
    ensures NoLostWakeup(SetWorker(s, w, Woken))
    ensures Count(s.workers[w := Woken], OnItsWay()) == Count(s.workers, OnItsWay()) + 1
    ensures SomeoneParked(s)
  {
    CountUpdate(s.workers, w, Woken, OnItsWay());
  }

  /** A push raises the queue and the pending notifications together; a delivered notification
      puts a worker on its way. */
  lemma CallWakeups(s: State, c: nat, wake: nat)
    requires NoLostWakeup(s) && Enabled(s, Call(c, wake))
    ensures NoLostWakeup(DoCall(s, c, wake))
  {
    CountUpdate(s.callers, c, DoCall(s, c, wake).callers[c], IsNotifying());
    if s.callers[c] == Notifying && SomeoneParked(s) {
      WakingOne(s, wake);
    }
  }

  lemma DestroyWakeups(s: State)
    requires NoLostWakeup(s) && Enabled(s, Destroy)
    ensures NoLostWakeup(DoDestroy(s))
  {
  }

  lemma StillParked(s: State, s': State, w: nat)
    requires |s.workers| == |s'.workers| && w < |s.workers| && SomeoneParked(s') && s'.workers[w] != Parked
    requires forall v :: 0 <= v < |s.workers| && v != w ==> s'.workers[v] == s.workers[v]
    ensures SomeoneParked(s)
  {
    var v :| 0 <= v < |s'.workers| && s'.workers[v] == Parked;
    assert s.workers[v] == Parked;
  }

  lemma BookkeepingKept(s: State, a: Action)
    requires Bookkeeping(s) && Enabled(s, a)
    ensures Bookkeeping(Do(s, a))
  {
    match a
    case Work(w) => WorkBooked(s, w);
    case Spurious(w) =>
      forall c: nat ensures Count(s.workers[w := Woken], Runs(c)) == Count(s.workers, Runs(c)) {
        CountUpdate(s.workers, w, Woken, Runs(c));
      }
    case Call(c, wake) => CallBooked(s, c, wake);
    case Destroy =>
      forall c: nat ensures Count(WakeAll(s.workers), Runs(c)) == Count(s.workers, Runs(c)) {
        CountSame(WakeAll(s.workers), s.workers, Runs(c), Runs(c));
      }
  }

  lemma WorkBooked(s: State, w: nat)
    requires Bookkeeping(s) && Enabled(s, Work(w))
    ensures Bookkeeping(DoWork(s, w))
  {
    hide Check, Is, Runs;
    forall c: nat
      ensures Count(DoWork(s, w).popped, Is(c))
           == Count(DoWork(s, w).finished, Is(c)) + Count(DoWork(s, w).workers, Runs(c))
    {
      WorkCounts(s, w, c);
    }
    WorkKeepsOrder(s, w);
  }

  lemma WorkKeepsOrder(s: State, w: nat)
    requires s.pushed == s.popped + s.queue && Enabled(s, Work(w))
    ensures DoWork(s, w).pushed == s.pushed && DoWork(s, w).callers == s.callers
    ensures s.pushed == DoWork(s, w).popped + DoWork(s, w).queue
  {
  }

  lemma WorkCounts(s: State, w: nat, c: nat)
    requires Enabled(s, Work(w))
    requires Count(s.popped, Is(c)) == Count(s.finished, Is(c)) + Count(s.workers, Runs(c))
    ensures Count(DoWork(s, w).popped, Is(c))
         == Count(DoWork(s, w).finished, Is(c)) + Count(DoWork(s, w).workers, Runs(c))
  {
    hide Count;
    CountUpdate(s.workers, w, DoWork(s, w).workers[w], Runs(c));
    match s.workers[w]
    case Checking(_) =>
      if Check(s.queue, s.stop).Take? {
        CountSnoc(s.popped, s.queue[0], Is(c));
      }
    case Running(task) => CountSnoc(s.finished, task, Is(c));
    case _ =>
  }

  lemma CallBooked(s: State, c: nat, wake: nat)
    requires Bookkeeping(s) && Enabled(s, Call(c, wake))
    ensures Bookkeeping(DoCall(s, c, wake))
  {
    hide Count;
    var s' := DoCall(s, c, wake);
    if s.callers[c] == Pushing && !s.stop {
      PushBooked(s, c);
    } else {
      forall d: nat ensures Count(s'.workers, Runs(d)) == Count(s.workers, Runs(d)) {
        WakeRunsNobody(s.workers, wake, d);
      }
      assert forall d :: 0 <= d < |s.callers| ==> Submitted(s'.callers[d]) == Submitted(s.callers[d]);
    }
  }

  lemma WakeRunsNobody(workers: seq<Worker>, wake: nat, c: nat)
    ensures wake < |workers| && workers[wake] == Parked ==>
              Count(workers[wake := Woken], Runs(c)) == Count(workers, Runs(c))
  {
    if wake < |workers| {
      CountUpdate(workers, wake, Woken, Runs(c));
    }
  }

  lemma PushBooked(s: State, c: nat)
    requires Bookkeeping(s) && c < |s.callers| && s.callers[c] == Pushing && !s.stop
    ensures Bookkeeping(DoCall(s, c, 0))
  {
    var s' := DoCall(s, c, 0);
    forall d | 0 <= d < |s.callers|
      ensures Count(s'.pushed, Is(d)) == if Submitted(s'.callers[d]) then 1 else 0
    {
      CountSnoc(s.pushed, c, Is(d));
    }
  }

  lemma AdmissionKept(s: State, a: Action)
    requires Admission(s) && Enabled(s, a)
    ensures Admission(Do(s, a))
  {
  }

  /** No task finishes twice, and none that was not accepted. */
  lemma FinishedOnce(s: State, c: nat)
    requires Bookkeeping(s) && c < |s.callers|
    ensures Count(s.finished, Is(c)) <= if Submitted(s.callers[c]) then 1 else 0
  {
    CountConcat(s.popped, s.queue, Is(c));
  }

  lemma GoodKept(s: State, a: Action)
    requires Good(s) && Enabled(s, a)
    ensures Good(Do(s, a))
  {
    hide Do, Enabled, Exclusive, Shutdown, NoLostWakeup, Bookkeeping, Admission;
    ExclusiveKept(s, a);
    AdmissionKept(s, a);
    ShutdownKept(s, a);
    NoLostWakeupKept(s, a);
    BookkeepingKept(s, a);
  }

  // ---------------------------------------------------------------- whole runs

  /** A run takes any enabled actions, one after another. */
  ghost predicate IsRun(s: State, run: seq<Action>) {
    run == [] || (IsRun(s, run[..|run| - 1]) && Enabled(EndOf(s, run[..|run| - 1]), run[|run| - 1]))
  }

  ghost function EndOf(s: State, run: seq<Action>): State {
    if run == [] then s
    else
      var before := EndOf(s, run[..|run| - 1]);
      if Enabled(before, run[|run| - 1]) then Do(before, run[|run| - 1]) else before
  }

  lemma SizesKept(s: State, a: Action)
    requires Enabled(s, a)
    ensures |Do(s, a).workers| == |s.workers| && |Do(s, a).callers| == |s.callers|
  {
  }

  lemma {:induction false} RunGood(s: State, run: seq<Action>)
    requires Good(s) && IsRun(s, run)
    ensures Good(EndOf(s, run))
    ensures |EndOf(s, run).workers| == |s.workers| && |EndOf(s, run).callers| == |s.callers|
  {
    if run != [] {
      hide Good, Do, Enabled;
      var n := |run| - 1;
      RunGood(s, run[..n]);
      GoodKept(EndOf(s, run[..n]), run[n]);
      SizesKept(EndOf(s, run[..n]), run[n]);
    }
  }

  /** With no notification pending and nobody on the way, no worker sleeps beside a queued task. */
  lemma {:induction false} WorkConserving(workers: nat, callers: nat, run: seq<Action>)
    requires IsRun(Start(workers, callers), run)
    ensures var s := EndOf(Start(workers, callers), run);
            && (SomeoneParked(s) ==>
                  |s.queue| <= Count(s.callers, IsNotifying()) + Count(s.workers, OnItsWay()))
            && ((&& SomeoneParked(s)
                 && (forall c :: 0 <= c < |s.callers| ==> s.callers[c] != Notifying)
                 && (forall w :: 0 <= w < |s.workers| ==> !OnItsWay()(s.workers[w])))
                ==> s.queue == [])
  {
    StartGood(workers, callers);
    RunGood(Start(workers, callers), run);
    var s := EndOf(Start(workers, callers), run);
    CountZero(s.callers, IsNotifying());
    CountZero(s.workers, OnItsWay());
  }

  /** Tasks leave the queue in the order they entered it; and once every worker has exited, the
      queue is empty, every accepted task has run exactly once and no other has run. */
  lemma {:induction false} ShutdownDrains(workers: nat, callers: nat, run: seq<Action>)
    requires workers > 0 && IsRun(Start(workers, callers), run)
    ensures EndOf(Start(workers, callers), run).popped <= EndOf(Start(workers, callers), run).pushed
    ensures (forall w :: 0 <= w < |EndOf(Start(workers, callers), run).workers| ==>
                           EndOf(Start(workers, callers), run).workers[w] == Exited) ==>
              Drained(EndOf(Start(workers, callers), run))
  {
    StartGood(workers, callers);
    RunGood(Start(workers, callers), run);
    var s := EndOf(Start(workers, callers), run);
    if forall w :: 0 <= w < |s.workers| ==> s.workers[w] == Exited {
      assert s.workers[0] == Exited;
      forall c | 0 <= c < |s.callers|
        ensures Count(s.finished, Is(c)) == if Submitted(s.callers[c]) then 1 else 0
      {
        CountZero(s.workers, Runs(c));
        assert s.pushed == s.popped;
      }
    }
  }

  /** Nothing is left over, in order, exactly once. */
  ghost predicate Drained(s: State) {
    && s.queue == [] && s.popped == s.pushed
    && (forall c :: 0 <= c < |s.callers| ==>
                      Count(s.finished, Is(c)) == if Submitted(s.callers[c]) then 1 else 0)
  }

  /** Destruction returns only after that. */
  lemma {:induction false} DestroyedIsDrained(workers: nat, callers: nat, run: seq<Action>)
    requires workers > 0 && IsRun(Start(workers, callers), run)
    requires EndOf(Start(workers, callers), run).destructor == Destroyed
    ensures Drained(EndOf(Start(workers, callers), run))
  {
    StartGood(workers, callers);
    RunGood(Start(workers, callers), run);
    ShutdownDrains(workers, callers, run);
  }

  // ---------------------------------------------------------------- what may begin

  lemma TwoActions(s: State, a: Action, b: Action)
    requires Enabled(s, a) && Enabled(Do(s, a), b)
    ensures IsRun(s, [a, b]) && EndOf(s, [a, b]) == Do(Do(s, a), b)
  {
    hide Do, Enabled;
    assert [a, b][..1] == [a] && [a][..0] == [];
    assert EndOf(s, [a]) == Do(s, a) && IsRun(s, [a]);
  }

  /** Whenever the mutex is free an `enqueue` may begin; it hands its task to a pool that runs, at
      the end of the queue, and throws at a stopped one; it changes nothing else. */
  lemma EnqueueEffect(s: State, c: nat)
    requires c < |s.callers| && s.callers[c] == Ready && s.lock == Free
    ensures IsRun(s, [Call(c, 0), Call(c, 0)])
    ensures EndOf(s, [Call(c, 0), Call(c, 0)])
         == if s.stop then s.(callers := s.callers[c := Threw])
            else s.(callers := s.callers[c := Notifying], queue := s.queue + [c], pushed := s.pushed + [c])
  {
    hide Do, Enabled, IsRun, EndOf;
    var inside := s.(callers := s.callers[c := Pushing], lock := ByCaller(c));
    EnqueueBegins(s, c);
    EnqueueEnds(inside, c);
    TwoActions(s, Call(c, 0), Call(c, 0));
    assert inside.callers[c := Threw] == s.callers[c := Threw];
    assert inside.callers[c := Notifying] == s.callers[c := Notifying];
  }

  lemma EnqueueBegins(s: State, c: nat)
    requires c < |s.callers| && s.callers[c] == Ready && s.lock == Free
    ensures Enabled(s, Call(c, 0))
    ensures Do(s, Call(c, 0)) == s.(callers := s.callers[c := Pushing], lock := ByCaller(c))
  {
  }

  lemma EnqueueEnds(s: State, c: nat)
    requires c < |s.callers| && s.callers[c] == Pushing
    ensures Enabled(s, Call(c, 0))
    ensures Do(s, Call(c, 0))
         == if s.stop then s.(callers := s.callers[c := Threw], lock := Free)
            else s.(callers := s.callers[c := Notifying], lock := Free,
                    queue := s.queue + [c], pushed := s.pushed + [c])
  {
  }

  /** Whenever the mutex is free the destruction may begin, and it stops the pool. */
  lemma DestructionStops(s: State)
    requires s.destructor == Alive && s.lock == Free
    ensures IsRun(s, [Destroy, Destroy])
    ensures EndOf(s, [Destroy, Destroy]) == s.(destructor := NotifyAll, stop := true)
  {
    TwoActions(s, Destroy, Destroy);
  }

  /** Until the destruction has begun, every `enqueue` past its critical section has handed over its
      task, once. */
  lemma {:induction false} AcceptedWhileAlive(workers: nat, callers: nat, run: seq<Action>, c: nat)
    requires IsRun(Start(workers, callers), run) && c < callers
    requires EndOf(Start(workers, callers), run).destructor == Alive
    ensures var s := EndOf(Start(workers, callers), run);
            && c < |s.callers|
            && (s.callers[c] != Ready && s.callers[c] != Pushing <==> Submitted(s.callers[c]))
            && Count(s.pushed, Is(c)) == if Submitted(s.callers[c]) then 1 else 0
  {
    hide Exclusive, NoLostWakeup;
    StartGood(workers, callers);
    RunGood(Start(workers, callers), run);
  }

  /** At the start every worker may enter its critical section and no call has begun. */
  lemma StartIsOpen(workers: nat, callers: nat, w: nat, c: nat)
    requires w < workers && c < callers
    ensures Enabled(Start(workers, callers), Work(w))
    ensures Start(workers, callers).callers[c] == Ready && !Start(workers, callers).stop
  {
  }

  /** All that ever blocks: the mutex, the wait set, the join; and what has come to its end. */
  lemma OnlyTheseBlock(s: State, w: nat, c: nat)
    ensures w < |s.workers| && !Enabled(s, Work(w)) ==>
              && (s.workers[w] == Parked || s.workers[w] == Exited
                  || (s.lock != Free && (s.workers[w] == Wants || s.workers[w] == Woken)))
    ensures c < |s.callers| && (forall v: nat :: !Enabled(s, Call(c, v))) ==>
              && (s.callers[c] == Done || s.callers[c] == Threw || (s.lock != Free && s.callers[c] == Ready))
    ensures !Enabled(s, Destroy) ==>
              && (s.destructor == Destroyed || (s.lock != Free && s.destructor == Alive)
                  || (s.destructor.Joining? && s.destructor.next < |s.workers|
                      && s.workers[s.destructor.next] != Exited))
  {
    if c < |s.callers| {
      if s.callers[c] == Notifying {
        var a := NotifierCanMove(s, c);
        assert Enabled(s, Call(c, a.wake));
      } else if s.callers[c] == Pushing || (s.callers[c] == Ready && s.lock == Free) {
        assert Enabled(s, Call(c, 0));
      }
    }
  }

  /** Any parked worker may wake by itself, and any may be the one that a notification wakes. */
  lemma AnyParkedMayWake(s: State, w: nat, c: nat)
    requires w < |s.workers| && s.workers[w] == Parked
    ensures Enabled(s, Spurious(w)) && Do(s, Spurious(w)) == s.(workers := s.workers[w := Woken])
    ensures c < |s.callers| && s.callers[c] == Notifying ==>
              && Enabled(s, Call(c, w))
              && Do(s, Call(c, w)) == s.(workers := s.workers[w := Woken], callers := s.callers[c := Done])
  {
  }

  // ---------------------------------------------------------------- progress and termination

  function WorkerWeight(): Worker -> nat {
    (w: Worker) =>
      match w
      case Parked => 0
      case Wants => 3
      case Woken => 3
      case Checking(_) => 2
      case Running(_) => 4
      case Exited => 0
  }

  function CallerWeight(): Caller -> nat {
    (c: Caller) =>
      match c
      case Ready => 12
      case Pushing => 11
      case Notifying => 4
      case _ => 0
  }

  function DestructorWeight(s: State): nat {
    var n := |s.workers|;
    match s.destructor
    case Alive => 4 * n + 5
    case Stopping => 4 * n + 4
    case NotifyAll => 4 * n + 3
    case Joining(i) => if i <= n then n - i + 1 else 1
    case Destroyed => 0
  }

  /** What is left to do, spurious wake-ups aside. */
  function Remaining(s: State): nat {
    5 * |s.queue| + Total(s.workers, WorkerWeight()) + Total(s.callers, CallerWeight()) + DestructorWeight(s)
  }

  function IsParked(): Worker -> bool {
    (w: Worker) => w == Parked
  }

  lemma {:induction false} WakeAllWeight(workers: seq<Worker>)
    ensures Total(WakeAll(workers), WorkerWeight()) <= Total(workers, WorkerWeight()) + 3 * |workers|
  {
    if workers != [] {
      var n := |workers| - 1;
      WakeAllWeight(workers[..n]);
      assert WakeAll(workers)[..n] == WakeAll(workers[..n]);
    }
  }

  /** Every action but a spurious wake-up uses up part of what remains: from any state only
      boundedly many of them are possible, before and after `stop` alike. */
  lemma ActionsUseUp(s: State, a: Action)
    requires Enabled(s, a) && !a.Spurious?
    ensures Remaining(Do(s, a)) < Remaining(s)
  {
    match a
    case Work(w) => WorkUsesUp(s, w);
    case Call(c, wake) => CallUsesUp(s, c, wake);
    case Destroy => WakeAllWeight(s.workers);
  }

  /** A worker's step lowers its own weight and that of the queue together. */
  lemma WorkWeighs(s: State, w: nat)
    requires Enabled(s, Work(w))
    ensures var s' := DoWork(s, w);
            && s'.callers == s.callers && s'.destructor == s.destructor
            && |s'.workers| == |s.workers| && s'.workers == s.workers[w := s'.workers[w]]
            && 5 * |s'.queue| + WorkerWeight()(s'.workers[w]) < 5 * |s.queue| + WorkerWeight()(s.workers[w])
  {
  }

  lemma WorkUsesUp(s: State, w: nat)
    requires Enabled(s, Work(w))
    ensures Remaining(DoWork(s, w)) < Remaining(s)
  {
    hide Total, DoWork, WorkerWeight, CallerWeight;
    WorkWeighs(s, w);
    TotalUpdate(s.workers, w, DoWork(s, w).workers[w], WorkerWeight());
  }

  lemma CallUsesUp(s: State, c: nat, wake: nat)
    requires Enabled(s, Call(c, wake))
    ensures Remaining(DoCall(s, c, wake)) < Remaining(s)
  {
    hide Total;
    TotalUpdate(s.callers, c, DoCall(s, c, wake).callers[c], CallerWeight());
    if s.callers[c] == Notifying && wake < |s.workers| && s.workers[wake] == Parked {
      TotalUpdate(s.workers, wake, Woken, WorkerWeight());
    }
  }

  /** After `stop` nobody parks again: with spurious wake-ups counted too, every action strictly
      decreases the pair (parked workers, remaining work) in lexicographic order. */
  lemma ShutdownTerminates(s: State, a: Action)
    requires Exclusive(s) && Shutdown(s) && s.stop && Enabled(s, a)
    ensures var s' := Do(s, a);
            && s'.stop
            && (Count(s'.workers, IsParked()) < Count(s.workers, IsParked())
                || (Count(s'.workers, IsParked()) == Count(s.workers, IsParked()) && Remaining(s') < Remaining(s)))
            && (forall w :: 0 <= w < |s.workers| && s'.workers[w] == Parked ==> s.workers[w] == Parked)
  {
    hide Remaining, Count;
    var s' := Do(s, a);
    if !a.Spurious? {
      ActionsUseUp(s, a);
    }
    match a
    case Work(w) => CountUpdate(s.workers, w, s'.workers[w], IsParked());
    case Spurious(w) => CountUpdate(s.workers, w, Woken, IsParked());
    case Call(c, wake) =>
      if wake < |s.workers| {
        CountUpdate(s.workers, wake, Woken, IsParked());
      }
    case Destroy => CountMono(WakeAll(s.workers), s.workers, IsParked(), IsParked());
  }

  /** A spurious wake-up adds three steps at most: reacquire, recheck, park again. */
  lemma SpuriousAdds(s: State, w: nat)
    requires Enabled(s, Spurious(w))
    ensures Remaining(Do(s, Spurious(w))) == Remaining(s) + 3
  {
    TotalUpdate(s.workers, w, Woken, WorkerWeight());
  }

  /** What has been begun and has to be carried on: not a spurious wake-up, not the beginning of an
      `enqueue` call or of the destruction. */
  predicate Due(s: State, a: Action) {
    match a
    case Work(_) => true
    case Spurious(_) => false
    case Call(c, _) => c < |s.callers| && s.callers[c] != Ready
    case Destroy => !s.destructor.Alive?
  }

  /** The agent inside its critical section can always finish it, and then the mutex is free. */
  lemma OwnerCanMove(s: State) returns (a: Action)
    requires Exclusive(s) && s.lock != Free
    ensures Enabled(s, a) && Due(s, a) && Do(s, a).lock == Free
  {
    match s.lock
    case ByWorker(w) => a := Work(w);
    case ByCaller(c) => a := Call(c, 0);
    case ByDestructor => a := Destroy;
  }

  /** A pending notification can always be delivered. */
  lemma NotifierCanMove(s: State, c: nat) returns (a: Action)
    requires c < |s.callers| && s.callers[c] == Notifying
    ensures Enabled(s, a) && Due(s, a) && a.Call? && a.c == c
  {
    if SomeoneParked(s) {
      var w :| 0 <= w < |s.workers| && s.workers[w] == Parked;
      a := Call(c, w);
    } else {
      a := Call(c, 0);
    }
  }

  /** As long as a task is queued some agent can carry on, without the help of a spurious wake-up,
      of a further `enqueue` or of the destructor. */
  lemma QueueKeepsMoving(s: State) returns (a: Action)
    requires Good(s) && |s.workers| > 0 && s.queue != []
    ensures Enabled(s, a) && Due(s, a)
  {
    if s.lock != Free {
      a := OwnerCanMove(s);
    } else {
      a := Work(0);
      if s.workers[0] == Parked {
        assert SomeoneParked(s);
        CountZero(s.callers, IsNotifying());
        CountZero(s.workers, OnItsWay());
        if w :| 0 <= w < |s.workers| && OnItsWay()(s.workers[w]) {
          a := Work(w);
        } else {
          var c :| 0 <= c < |s.callers| && IsNotifying()(s.callers[c]);
          a := NotifierCanMove(s, c);
        }
      }
    }
  }

  /** Once `stop` is set, some agent can move until the destructor has returned. */
  lemma ShutdownKeepsMoving(s: State) returns (a: Action)
    requires Good(s) && s.stop && s.destructor != Destroyed
    ensures Enabled(s, a) && Due(s, a)
  {
    if s.lock != Free {
      a := OwnerCanMove(s);
    } else if s.destructor.Joining? && s.destructor.next < |s.workers| && s.workers[s.destructor.next] != Exited {
      assert s.workers[s.destructor.next] != Parked;
      a := Work(s.destructor.next);
    } else {
      a := Destroy;
    }
  }

  // ---------------------------------------------------------------- shutdown, whole runs

  /** What is left to do after `stop`: a parked worker may be woken spuriously, once. */
  function ShutdownLeft(s: State): nat {
    Remaining(s) + 4 * Count(s.workers, IsParked())
  }

  lemma ShutdownStep(s: State, a: Action)
    requires Good(s) && s.stop && Enabled(s, a)
    ensures Do(s, a).stop && ShutdownLeft(Do(s, a)) < ShutdownLeft(s)
  {
    hide Remaining, Do, Enabled, Count, Exclusive, NoLostWakeup, Shutdown, Bookkeeping, Admission;
    ShutdownTerminates(s, a);
    if a.Spurious? {
      SpuriousAdds(s, a.w);
    } else {
      ActionsUseUp(s, a);
    }
  }

  /** After `stop` every run is finite, spurious wake-ups included, and one that goes on until nothing
      begun can be carried on ends with the destructor's return. */
  lemma {:induction false} ShutdownRunsEnd(s: State, run: seq<Action>)
    requires Good(s) && s.stop && IsRun(s, run)
    ensures EndOf(s, run).stop && |run| + ShutdownLeft(EndOf(s, run)) <= ShutdownLeft(s)
    ensures (forall a :: Due(EndOf(s, run), a) ==> !Enabled(EndOf(s, run), a)) ==>
              EndOf(s, run).destructor == Destroyed
  {
    hide Good, Do, Enabled, ShutdownLeft, Due;
    RunGood(s, run);
    if run != [] {
      var n := |run| - 1;
      ShutdownRunsEnd(s, run[..n]);
      RunGood(s, run[..n]);
      ShutdownStep(EndOf(s, run[..n]), run[n]);
    }
    if EndOf(s, run).destructor != Destroyed {
      var a := ShutdownKeepsMoving(EndOf(s, run));
    }
  }
}
