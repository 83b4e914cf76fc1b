/** The service as it runs: any number of threads, one SQL statement per step, one mutex.
    Every schedule of these steps is matched with a run of indivisible operations. */
module Interleaving {
  import opened Prelude
  import opened Folds
  import opened Tables
  import opened Audit
  import opened Requests
  import opened Runs

  /** Where a thread stands in the code of its call, with its locals. */
  datatype Stage =
    | Idle
    | Called(op: Op)
    | Waiting(op: Op)
    | Locked(op: Op)
    | GotCapacity(req: Request, cap: int)
    | GotLoad(req: Request, cap: int, load: nat)
    | PaidRow(id: int, amount: real)
    | FoundPayment(id: int, paid: real)
    | CancelledRow(id: int, paid: real)
    | Expired(timeout: int, expired: nat)
    | Grouped(timeout: int, expired: nat, groups: seq<Group>)
    | Finishing(op: Op, reply: Reply)
    | Returning(op: Op, reply: Reply)

  /** `lock` is the owner of `db_mutex`; `now` is the clock the statements read. */
  datatype Machine = Machine(db: Db, lock: Option<nat>, threads: seq<Stage>, now: int)

  datatype Choice = Begin(t: nat, op: Op) | Run(t: nat) | Tick(d: nat)

  // ---------------------------------------------------------------- one step

  function Goto(m: Machine, t: nat, s: Stage): Machine
    requires t < |m.threads|
  {
    m.(threads := m.threads[t := s])
  }

  /** The next statement of thread `t`; a thread that is idle or blocked on the mutex does nothing. */
  function RunThread(m: Machine, t: nat): Machine
    requires t < |m.threads|
  {
    match m.threads[t]
    case Idle => m
    case Called(op) =>
      if op.Reserve? && EarlyReply(op.req).Some? then Goto(m, t, Returning(op, EarlyReply(op.req).value))
      else Goto(m, t, Waiting(op))
    case Waiting(op) =>
      if m.lock.None? then Goto(m, t, Locked(op)).(lock := Some(t)) else m
    case Locked(Reserve(req)) => Goto(m, t, GotCapacity(req, CapacityOf(m.db, req.center, req.workshop)))
    case GotCapacity(req, cap) => Goto(m, t, GotLoad(req, cap, LoadFor(m.db, req)))
    case GotLoad(req, cap, load) =>
      if load < cap then
        Goto(m, t, Finishing(Reserve(req), Reserved(m.db.lastId + 1))).(db := InsertReservation(m.db, req, m.now))
      else Goto(m, t, Finishing(Reserve(req), Full(cap)))
    case Locked(Pay(id, amount)) =>
      var w := ById(id, Rezervare);
      Goto(m, t, if Changes(m.db, w) > 0 then PaidRow(id, amount) else Finishing(Pay(id, amount), PayRefused))
      .(db := UpdateStatus(m.db, w, Platita))
    case PaidRow(id, amount) =>
      Goto(m, t, Finishing(Pay(id, amount), Paid))
      .(db := InsertTransaction(m.db, Transaction(id, Incasare, amount)))
    case Locked(Cancel(id)) =>
      var payment := FirstPayment(m.db.transactions, id);
      Goto(m, t, if payment.Some? then FoundPayment(id, payment.value) else Finishing(Cancel(id), NotPaid))
    case FoundPayment(id, paid) =>
      var w := ById(id, Platita);
      Goto(m, t, if Changes(m.db, w) > 0 then CancelledRow(id, paid) else Finishing(Cancel(id), CancelFailed))
      .(db := UpdateStatus(m.db, w, Anulata))
    case CancelledRow(id, paid) =>
      Goto(m, t, Finishing(Cancel(id), Refunded(paid)))
      .(db := InsertTransaction(m.db, Transaction(id, Ramburs, -paid)))
    case Locked(Sweep(timeout)) =>
      Goto(m, t, Expired(timeout, Changes(m.db, ExpiryWhere(timeout, m.now))))
      .(db := Expire(m.db, timeout, m.now))
    case Expired(timeout, n) => Goto(m, t, Grouped(timeout, n, GroupRows(m.db, m.db.reservations)))
    case Grouped(timeout, n, groups) =>
      var balances := BalancesOf(m.db.reservations, m.db.transactions);
      Goto(m, t, Finishing(Sweep(timeout),
                           if HasNullHour(groups) then Undefined
                           else Audited(Report(n, LinesOf(groups), LinesOf(groups) != [],
                                               balances, balances != []))))
    case Finishing(op, reply) => Goto(m, t, Returning(op, reply)).(lock := None)
    case Returning(_, _) => Goto(m, t, Idle)
  }

  function Step(m: Machine, ch: Choice): Machine {
    match ch
    case Begin(t, op) => if t < |m.threads| && m.threads[t].Idle? then Goto(m, t, Called(op)) else m
    case Run(t) => if t < |m.threads| then RunThread(m, t) else m
    case Tick(d) => m.(now := m.now + d)
  }

  /** The step of a call at which its effect is decided, with the reply it will give. */
  function Commit(m: Machine, ch: Choice): Option<Entry> {
    if !ch.Run? || ch.t >= |m.threads| then None
    else
      match m.threads[ch.t]
      case Called(Reserve(req)) =>
        if EarlyReply(req).Some? then Some(Entry(Reserve(req), EarlyReply(req).value, m.now)) else None
      case GotLoad(req, cap, load) =>
        Some(Entry(Reserve(req), if load < cap then Reserved(m.db.lastId + 1) else Full(cap), m.now))
      case Locked(Pay(id, amount)) =>
        Some(Entry(Pay(id, amount), if Changes(m.db, ById(id, Rezervare)) > 0 then Paid else PayRefused, m.now))
      case Locked(Cancel(id)) =>
        if FirstPayment(m.db.transactions, id).None? then Some(Entry(Cancel(id), NotPaid, m.now)) else None
      case FoundPayment(id, paid) =>
        Some(Entry(Cancel(id), if Changes(m.db, ById(id, Platita)) > 0 then Refunded(paid) else CancelFailed, m.now))
      case Locked(Sweep(timeout)) =>
        Some(Entry(Sweep(timeout),
                   AuditReply(Expire(m.db, timeout, m.now), Changes(m.db, ExpiryWhere(timeout, m.now))),
                   m.now))
      case _ => None
  }

  // ---------------------------------------------------------------- mutual exclusion and stable locals

  predicate Holds(s: Stage) {
    !s.Idle? && !s.Called? && !s.Waiting? && !s.Returning?
  }

  /** What a thread's locals still say about the tables. */
  ghost predicate StageRight(db: Db, s: Stage) {
    match s
    case Waiting(op) => op.Reserve? ==> EarlyReply(op.req).None?
    case Locked(op) => op.Reserve? ==> EarlyReply(op.req).None?
    case GotCapacity(req, cap) => EarlyReply(req).None? && cap == CapacityOf(db, req.center, req.workshop)
    case GotLoad(req, cap, load) =>
      EarlyReply(req).None? && cap == CapacityOf(db, req.center, req.workshop) && load == LoadFor(db, req)
    case FoundPayment(id, paid) => FirstPayment(db.transactions, id) == Some(paid)
    case Grouped(_, _, groups) => groups == GroupRows(db, db.reservations)
    case _ => true
  }

  /** Exactly the owner of the mutex is inside a call, and nobody's locals are out of date. */
  ghost predicate Good(m: Machine) {
    && (m.lock.Some? ==> m.lock.value < |m.threads|)
    && (forall t :: 0 <= t < |m.threads| ==> (Holds(m.threads[t]) <==> m.lock == Some(t)))
    && (forall t :: 0 <= t < |m.threads| ==> StageRight(m.db, m.threads[t]))
  }

  lemma Unlocked(db: Db, db': Db, s: Stage)
    requires !Holds(s) && StageRight(db, s)
    ensures StageRight(db', s)
  {
  }

  /** What a step of thread `t` leaves alone, and what it may do to lock and tables. */
  lemma RunFrame(m: Machine, t: nat)
    requires t < |m.threads| && (Holds(m.threads[t]) <==> m.lock == Some(t))
    ensures var m' := RunThread(m, t);
            && |m'.threads| == |m.threads|
            && (forall u :: 0 <= u < |m.threads| && u != t ==> m'.threads[u] == m.threads[u])
            && (Holds(m'.threads[t]) <==> m'.lock == Some(t))
            && (m'.lock == m.lock || (m.lock.None? && m'.lock == Some(t)) || (m.lock == Some(t) && m'.lock.None?))
            && (m'.db != m.db ==> Holds(m.threads[t]))
  {
    hide SetStatus, Changes, GroupRows, BalancesOf, LinesOf, Expire, FirstPayment, LoadFor, CapacityOf, EarlyReply,
         InsertReservation, InsertTransaction, UpdateStatus;
  }

  lemma RunStageRight(m: Machine, t: nat)
    requires t < |m.threads| && StageRight(m.db, m.threads[t])
    ensures |RunThread(m, t).threads| == |m.threads|
    ensures StageRight(RunThread(m, t).db, RunThread(m, t).threads[t])
  {
    hide SetStatus, Changes, GroupRows, BalancesOf, LinesOf, Expire, FirstPayment, LoadFor, CapacityOf, EarlyReply,
         InsertReservation, InsertTransaction, UpdateStatus, Holds;
  }

  lemma RunOwn(m: Machine, t: nat)
    requires Good(m) && t < |m.threads|
    ensures var m' := RunThread(m, t);
            && |m'.threads| == |m.threads|
            && (forall u :: 0 <= u < |m.threads| && u != t ==> m'.threads[u] == m.threads[u])
            && StageRight(m'.db, m'.threads[t])
            && (Holds(m'.threads[t]) <==> m'.lock == Some(t))
            && (m'.lock == m.lock || (m.lock.None? && m'.lock == Some(t)) || (m.lock == Some(t) && m'.lock.None?))
            && (m'.db != m.db ==> Holds(m.threads[t]))
  {
    hide RunThread, StageRight;
    RunFrame(m, t);
    RunStageRight(m, t);
  }

  lemma {:induction false} StepGood(m: Machine, ch: Choice)
    requires Good(m)
    ensures Good(Step(m, ch)) && |Step(m, ch).threads| == |m.threads|
  {
    if ch.Run? && ch.t < |m.threads| {
      hide RunThread;
      var t, m' := ch.t, Step(m, ch);
      RunOwn(m, t);
      forall u | 0 <= u < |m'.threads| && u != t ensures StageRight(m'.db, m'.threads[u]) {
        if m'.db != m.db {
          Unlocked(m.db, m'.db, m.threads[u]);
        }
      }
    }
  }

  // ---------------------------------------------------------------- the refinement mapping

  /** The tables as they will be once the lock owner has run the statement it still owes. */
  function Settle(m: Machine): Db {
    if m.lock.None? || m.lock.value >= |m.threads| then m.db
    else
      match m.threads[m.lock.value]
      case PaidRow(id, amount) => InsertTransaction(m.db, Transaction(id, Incasare, amount))
      case CancelledRow(id, paid) => InsertTransaction(m.db, Transaction(id, Ramburs, -paid))
      case _ => m.db
  }

  /** Each step is either one whole operation on the settled tables, with its reply, or leaves
      them as they are. */
  lemma {:induction false} StepRefines(m: Machine, ch: Choice)
    requires Good(m)
    ensures match Commit(m, ch)
            case None => Settle(Step(m, ch)) == Settle(m)
            case Some(e) =>
              && (Settle(Step(m, ch)), e.reply) == Atomic(Settle(m), e.op, e.at)
              && e.at == m.now
  {
    if ch.Run? && ch.t < |m.threads| {
      RunOwn(m, ch.t);
      RunRefines(m, ch.t);
    }
  }

  lemma {:induction false} RunRefines(m: Machine, t: nat)
    requires Good(m) && t < |m.threads|
    ensures match Commit(m, Run(t))
            case None => Settle(RunThread(m, t)) == Settle(m)
            case Some(e) => (Settle(RunThread(m, t)), e.reply) == Atomic(Settle(m), e.op, e.at)
  {
    hide SetStatus, Changes, GroupRows, BalancesOf, LinesOf, FirstPayment, EarlyReply, CapacityOf, LoadFor,
         InsertReservation, InsertTransaction;
    assert StageRight(m.db, m.threads[t]);
    match m.threads[t]
    case Locked(Pay(id, amount)) => assert Settle(m) == m.db;
    case FoundPayment(id, paid) => assert Settle(m) == m.db;
    case _ =>
  }

  // ---------------------------------------------------------------- schedules

  type Schedule = seq<Choice>

  /** `n` idle threads on the given tables. */
  function Start(db: Db, n: nat, now: int): Machine {
    Machine(db, None, seq(n, _ => Idle), now)
  }

  function Reached(m: Machine, sched: Schedule): Machine {
    if sched == [] then m else Step(Reached(m, sched[..|sched| - 1]), sched[|sched| - 1])
  }

  lemma {:induction false} ReachedConcat(m: Machine, first: Schedule, second: Schedule)
    ensures Reached(m, first + second) == Reached(Reached(m, first), second)
  {
    hide Step;
    if second == [] {
      assert first + second == first;
    } else {
      var n := |second| - 1;
      ReachedConcat(m, first, second[..n]);
      assert (first + second)[..|first| + n] == first + second[..n];
    }
  }

  /** The operations in the order they took effect. */
  function CommitLog(m: Machine, sched: Schedule): seq<Entry> {
    if sched == [] then []
    else
      var before := Reached(m, sched[..|sched| - 1]);
      var log := CommitLog(m, sched[..|sched| - 1]);
      match Commit(before, sched[|sched| - 1])
      case None => log
      case Some(e) => log + [e]
  }

  lemma StartGood(db: Db, n: nat, now: int)
    ensures Good(Start(db, n, now)) && Settle(Start(db, n, now)) == db
  {
  }

  lemma {:induction false} ReachedGood(m: Machine, sched: Schedule)
    requires Good(m)
    ensures Good(Reached(m, sched)) && |Reached(m, sched).threads| == |m.threads|
  {
    hide Step, Commit;
    if sched != [] {
      ReachedGood(m, sched[..|sched| - 1]);
      StepGood(Reached(m, sched[..|sched| - 1]), sched[|sched| - 1]);
    }
  }

  /** Refinement: every schedule is a legal run of indivisible operations, ending in the settled
      tables; whenever the mutex is free these are the tables themselves. */
  lemma {:induction false} EveryScheduleRefines(m: Machine, sched: Schedule)
    requires Good(m)
    ensures Legal(Settle(m), CommitLog(m, sched))
    ensures After(Settle(m), CommitLog(m, sched)) == Settle(Reached(m, sched))
    ensures Reached(m, sched).lock.None? ==> Settle(Reached(m, sched)) == Reached(m, sched).db
  {
    hide Step, Commit;
    if sched != [] {
      var n := |sched| - 1;
      var before := Reached(m, sched[..n]);
      EveryScheduleRefines(m, sched[..n]);
      ReachedGood(m, sched[..n]);
      StepRefines(before, sched[n]);
      match Commit(before, sched[n])
      case None =>
      case Some(e) => RunSnoc(Settle(m), CommitLog(m, sched[..n]), e);
    }
  }

  lemma ClockStep(m: Machine, ch: Choice)
    ensures m.now <= Step(m, ch).now
    ensures Commit(m, ch).Some? ==> Commit(m, ch).value.at == m.now
  {
  }

  function TickOf(): Choice -> nat {
    (ch: Choice) => if ch.Tick? then ch.d else 0
  }

  /** The clock shows the time that has passed, whatever the threads do. */
  lemma {:induction false} ClockRuns(m: Machine, sched: Schedule)
    ensures Reached(m, sched).now == m.now + Total(sched, TickOf())
  {
    hide Step;
    if sched != [] {
      ClockRuns(m, sched[..|sched| - 1]);
      OneTick(Reached(m, sched[..|sched| - 1]), sched[|sched| - 1]);
    }
  }

  lemma OneTick(m: Machine, ch: Choice)
    ensures Step(m, ch).now == m.now + TickOf()(ch)
  {
  }

  /** The effects are stamped with the clock at which they happened, so the log is in time order. */
  lemma {:induction false} LogInTimeOrder(m: Machine, sched: Schedule, i: nat, j: nat)
    requires i <= j < |CommitLog(m, sched)|
    ensures CommitLog(m, sched)[i].at <= CommitLog(m, sched)[j].at <= Reached(m, sched).now
  {
    hide Step, Commit;
    if sched != [] {
      var n := |sched| - 1;
      var log := CommitLog(m, sched[..n]);
      ClockStep(Reached(m, sched[..n]), sched[n]);
      if j < |log| {
        LogInTimeOrder(m, sched[..n], i, j);
      } else if i < |log| {
        LogInTimeOrder(m, sched[..n], i, i);
      }
    }
  }

  /** What took effect by step `k` stays the beginning of what takes effect by the end. */
  lemma {:induction false} LogGrows(m: Machine, sched: Schedule, k: nat)
    requires k <= |sched|
    ensures CommitLog(m, sched[..k]) <= CommitLog(m, sched)
  {
    hide Step, Commit;
    if k < |sched| {
      var n := |sched| - 1;
      LogGrows(m, sched[..n], k);
      assert sched[..n][..k] == sched[..k];
    } else {
      assert sched[..k] == sched;
    }
  }

  // ---------------------------------------------------------------- calls and answers of one thread

  /** The call a thread is in whose effect is still to come. */
  function PendingOp(s: Stage): seq<Op> {
    match s
    case Called(op) => [op]
    case Waiting(op) => [op]
    case Locked(op) => [op]
    case GotCapacity(req, _) => [Reserve(req)]
    case GotLoad(req, _, _) => [Reserve(req)]
    case FoundPayment(id, _) => [Cancel(id)]
    case _ => []
  }

  datatype Answer = Answer(op: Op, reply: Reply)

  /** The answer a thread owes for a call whose effect has happened. */
  function PendingAnswer(db: Db, s: Stage): seq<Answer> {
    match s
    case PaidRow(id, amount) => [Answer(Pay(id, amount), Paid)]
    case CancelledRow(id, paid) => [Answer(Cancel(id), Refunded(paid))]
    case Expired(timeout, n) => [Answer(Sweep(timeout), AuditReply(db, n))]
    case Grouped(timeout, n, _) => [Answer(Sweep(timeout), AuditReply(db, n))]
    case Finishing(op, reply) => [Answer(op, reply)]
    case Returning(op, reply) => [Answer(op, reply)]
    case _ => []
  }

  /** What one step adds to the calls, effects and answers of thread `t`. */
  function Starts(m: Machine, ch: Choice, t: nat): seq<Op> {
    if ch.Begin? && ch.t == t && t < |m.threads| && m.threads[t].Idle? then [ch.op] else []
  }

  function Effects(m: Machine, ch: Choice, t: nat): seq<Answer> {
    if ch.Run? && ch.t == t && Commit(m, ch).Some?
    then [Answer(Commit(m, ch).value.op, Commit(m, ch).value.reply)] else []
  }

  function Ends(m: Machine, ch: Choice, t: nat): seq<Answer> {
    if ch.Run? && ch.t == t && t < |m.threads| && m.threads[t].Returning?
    then [Answer(m.threads[t].op, m.threads[t].reply)] else []
  }

  function Calls(m: Machine, sched: Schedule, t: nat): seq<Op> {
    if sched == [] then []
    else Calls(m, sched[..|sched| - 1], t) + Starts(Reached(m, sched[..|sched| - 1]), sched[|sched| - 1], t)
  }

  function Decisions(m: Machine, sched: Schedule, t: nat): seq<Answer> {
    if sched == [] then []
    else Decisions(m, sched[..|sched| - 1], t) + Effects(Reached(m, sched[..|sched| - 1]), sched[|sched| - 1], t)
  }

  function Answers(m: Machine, sched: Schedule, t: nat): seq<Answer> {
    if sched == [] then []
    else Answers(m, sched[..|sched| - 1], t) + Ends(Reached(m, sched[..|sched| - 1]), sched[|sched| - 1], t)
  }

  function OpsOf(answers: seq<Answer>): (ops: seq<Op>)
    ensures |ops| == |answers|
    ensures forall i :: 0 <= i < |answers| ==> ops[i] == answers[i].op
  {
    seq(|answers|, i requires 0 <= i < |answers| => answers[i].op)
  }

  /** A thread that does not move keeps its call as it is. */
  lemma OtherThread(m: Machine, ch: Choice, t: nat)
    requires Good(m) && t < |m.threads| && (ch.Tick? || ch.t != t)
    ensures t < |Step(m, ch).threads| && Step(m, ch).threads[t] == m.threads[t]
    ensures PendingAnswer(Step(m, ch).db, m.threads[t]) == PendingAnswer(m.db, m.threads[t])
  {
    if ch.Run? && ch.t < |m.threads| {
      hide RunThread, AuditReply, StageRight;
      RunOwn(m, ch.t);
      assert Holds(m.threads[t]) ==> Step(m, ch).db == m.db;
    }
  }

  /** How a thread's own step moves its call from pending to decided. */
  lemma OwnCall(m: Machine, t: nat)
    requires t < |m.threads|
    ensures |RunThread(m, t).threads| == |m.threads|
    ensures PendingOp(m.threads[t]) == OpsOf(Effects(m, Run(t), t)) + PendingOp(RunThread(m, t).threads[t])
  {
    hide SetStatus, Changes, GroupRows, BalancesOf, LinesOf, Expire, FirstPayment, AuditReply, LoadFor, CapacityOf,
         EarlyReply, InsertReservation, InsertTransaction, UpdateStatus;
    var s, after := m.threads[t], RunThread(m, t).threads[t];
    if Commit(m, Run(t)).Some? {
      assert PendingOp(s) == [Commit(m, Run(t)).value.op] && PendingOp(after) == [];
    } else {
      assert PendingOp(s) == PendingOp(after);
    }
  }

  /** How a thread's own step moves its call from decided to answered. */
  lemma OwnAnswer(m: Machine, t: nat)
    requires Good(m) && t < |m.threads|
    ensures |RunThread(m, t).threads| == |m.threads|
    ensures PendingAnswer(m.db, m.threads[t]) + Effects(m, Run(t), t)
         == Ends(m, Run(t), t) + PendingAnswer(RunThread(m, t).db, RunThread(m, t).threads[t])
  {
    hide SetStatus, Changes, GroupRows, BalancesOf, LinesOf, Expire, FirstPayment, LoadFor, CapacityOf, EarlyReply,
         InsertReservation, InsertTransaction, UpdateStatus;
    assert StageRight(m.db, m.threads[t]);
    var s, db', after := m.threads[t], RunThread(m, t).db, RunThread(m, t).threads[t];
    if Commit(m, Run(t)).Some? {
      assert PendingAnswer(m.db, s) == [] && PendingAnswer(db', after) == Effects(m, Run(t), t);
    } else if s.Returning? {
      assert PendingAnswer(m.db, s) == Ends(m, Run(t), t) && PendingAnswer(db', after) == [];
    } else {
      assert PendingAnswer(m.db, s) == PendingAnswer(db', after);
    }
  }

  /** One step moves a thread's call from pending to decided to answered, or not at all. */
  lemma ThreadStep(m: Machine, ch: Choice, t: nat)
    requires Good(m) && t < |m.threads|
    ensures t < |Step(m, ch).threads|
    ensures PendingOp(m.threads[t]) + Starts(m, ch, t)
         == OpsOf(Effects(m, ch, t)) + PendingOp(Step(m, ch).threads[t])
    ensures PendingAnswer(m.db, m.threads[t]) + Effects(m, ch, t)
         == Ends(m, ch, t) + PendingAnswer(Step(m, ch).db, Step(m, ch).threads[t])
  {
    hide RunThread, Commit, AuditReply, Good;
    if ch.Tick? || ch.t != t {
      OtherThread(m, ch, t);
    } else if ch.Run? {
      OwnCall(m, t);
      OwnAnswer(m, t);
    }
  }

  /** Linearizability: each thread's calls take effect once each and in order, between call and
      return, and it is answered exactly what they gave. */
  lemma {:induction false} CallsMatchAnswers(m: Machine, sched: Schedule, t: nat)
    requires Good(m) && t < |m.threads| && m.threads[t].Idle?
    ensures |Reached(m, sched).threads| == |m.threads|
    ensures Calls(m, sched, t) == OpsOf(Decisions(m, sched, t)) + PendingOp(Reached(m, sched).threads[t])
    ensures Decisions(m, sched, t)
         == Answers(m, sched, t) + PendingAnswer(Reached(m, sched).db, Reached(m, sched).threads[t])
  {
    hide Step, Commit, Starts, Effects, Ends;
    ReachedGood(m, sched);
    if sched != [] {
      var n := |sched| - 1;
      var before := Reached(m, sched[..n]);
      CallsMatchAnswers(m, sched[..n], t);
      ReachedGood(m, sched[..n]);
      ThreadStep(before, sched[n], t);
      JoinOps(Decisions(m, sched[..n], t), PendingOp(before.threads[t]), Starts(before, sched[n], t),
              Effects(before, sched[n], t), PendingOp(Step(before, sched[n]).threads[t]));
      Shuffle(Answers(m, sched[..n], t), PendingAnswer(before.db, before.threads[t]), Effects(before, sched[n], t),
              Ends(before, sched[n], t), PendingAnswer(Step(before, sched[n]).db, Step(before, sched[n]).threads[t]));
    }
  }

  // ---------------------------------------------------------------- one log for all threads

  /** The threads whose calls took effect, entry by entry of the log. */
  function Committers(m: Machine, sched: Schedule): seq<nat> {
    if sched == [] then []
    else
      var before := Reached(m, sched[..|sched| - 1]);
      var ch := sched[|sched| - 1];
      Committers(m, sched[..|sched| - 1]) + if Commit(before, ch).Some? then [ch.t] else []
  }

  /** The entries of one thread, in the order of the log. */
  function Projection(log: seq<Entry>, who: seq<nat>, t: nat): seq<Answer>
    requires |log| == |who|
  {
    if log == [] then []
    else
      var n := |log| - 1;
      Projection(log[..n], who[..n], t) + if who[n] == t then [Answer(log[n].op, log[n].reply)] else []
  }

  lemma ProjectionSnoc(log: seq<Entry>, who: seq<nat>, e: Entry, u: nat, t: nat)
    requires |log| == |who|
    ensures Projection(log + [e], who + [u], t)
         == Projection(log, who, t) + if u == t then [Answer(e.op, e.reply)] else []
  {
    assert (log + [e])[..|log|] == log && (who + [u])[..|who|] == who;
  }

  /** The log is one order of all effects: each thread's effects are its own entries of the log, in
      the order of the log. */
  lemma {:induction false} LogIsOneOrder(m: Machine, sched: Schedule, t: nat)
    ensures |Committers(m, sched)| == |CommitLog(m, sched)|
    ensures Projection(CommitLog(m, sched), Committers(m, sched), t) == Decisions(m, sched, t)
  {
    hide Step, Commit, Projection;
    if sched == [] {
      NothingProjected(t);
    } else {
      var n := |sched| - 1;
      var before := Reached(m, sched[..n]);
      LogIsOneOrder(m, sched[..n], t);
      if Commit(before, sched[n]).Some? {
        OnlyRunsCommit(before, sched[n]);
        ProjectionSnoc(CommitLog(m, sched[..n]), Committers(m, sched[..n]),
                       Commit(before, sched[n]).value, sched[n].t, t);
      } else {
        assert Committers(m, sched) == Committers(m, sched[..n]) && CommitLog(m, sched) == CommitLog(m, sched[..n]);
      }
    }
  }

  lemma NothingProjected(t: nat)
    ensures Projection([], [], t) == []
  {
  }

  lemma OnlyRunsCommit(m: Machine, ch: Choice)
    requires Commit(m, ch).Some?
    ensures ch.Run?
  {
  }

  lemma {:induction false} WhoGrows(m: Machine, sched: Schedule, k: nat)
    requires k <= |sched|
    ensures Committers(m, sched[..k]) <= Committers(m, sched)
  {
    hide Step, Commit;
    if k < |sched| {
      var n := |sched| - 1;
      WhoGrows(m, sched[..n], k);
      assert sched[..n][..k] == sched[..k];
    } else {
      assert sched[..k] == sched;
    }
  }

  /** Entry `a` of the log is the effect of the `i`-th call of thread `t`. */
  predicate IsEffect(log: seq<Entry>, who: seq<nat>, t: nat, i: nat, a: nat)
    requires |log| == |who|
  {
    a < |log| && who[a] == t && |Projection(log[..a], who[..a], t)| == i
  }

  lemma {:induction false} EffectAt(log: seq<Entry>, who: seq<nat>, t: nat, i: nat) returns (a: nat)
    requires |log| == |who| && i < |Projection(log, who, t)|
    ensures IsEffect(log, who, t, i, a)
    ensures Projection(log, who, t)[i] == Answer(log[a].op, log[a].reply)
  {
    var n := |log| - 1;
    if i < |Projection(log[..n], who[..n], t)| {
      a := EffectAt(log[..n], who[..n], t, i);
      assert log[..n][..a] == log[..a] && who[..n][..a] == who[..a];
    } else {
      a := n;
    }
  }

  /** An entry of the thread beyond the first `i` comes after them. */
  lemma {:induction false} EffectCounted(log: seq<Entry>, who: seq<nat>, t: nat, i: nat, a: nat)
    requires |log| == |who| && IsEffect(log, who, t, i, a)
    ensures i < |Projection(log, who, t)|
  {
    var n := |log| - 1;
    if a < n {
      assert log[..n][..a] == log[..a] && who[..n][..a] == who[..a];
      EffectCounted(log[..n], who[..n], t, i, a);
    }
  }

  /** Real-time order: a call that is answered by step `k` of a schedule takes effect before every
      call that begins after step `k`. Their places in the one log are `a` and `b`, and what they
      were or will be answered is what stands there. */
  lemma {:induction false} RealTimeOrder(m: Machine, sched: Schedule, k: nat, t: nat, i: nat, u: nat, j: nat)
    returns (a: nat, b: nat)
    requires Good(m) && k <= |sched| && forall v :: 0 <= v < |m.threads| ==> m.threads[v].Idle?
    requires t < |m.threads| && u < |m.threads|
    requires i < |Answers(m, sched[..k], t)| && |Calls(m, sched[..k], u)| <= j < |Decisions(m, sched, u)|
    ensures |Committers(m, sched)| == |CommitLog(m, sched)|
    ensures a < b < |CommitLog(m, sched)|
    ensures IsEffect(CommitLog(m, sched), Committers(m, sched), t, i, a)
    ensures IsEffect(CommitLog(m, sched), Committers(m, sched), u, j, b)
    ensures var log := CommitLog(m, sched);
            && Answers(m, sched[..k], t)[i] == Answer(log[a].op, log[a].reply)
            && Decisions(m, sched, u)[j] == Answer(log[b].op, log[b].reply)
  {
    hide Reached, CommitLog, Committers, Projection, PendingAnswer, PendingOp, Calls, Answers, Decisions;
    CallsMatchAnswers(m, sched[..k], t);
    CallsMatchAnswers(m, sched[..k], u);
    LogIsOneOrder(m, sched[..k], t);
    LogIsOneOrder(m, sched[..k], u);
    LogIsOneOrder(m, sched, u);
    var early, who := CommitLog(m, sched[..k]), Committers(m, sched[..k]);
    a := EffectAt(early, who, t, i);
    b := EffectAt(CommitLog(m, sched), Committers(m, sched), u, j);
    LogGrows(m, sched, k);
    WhoGrows(m, sched, k);
    assert CommitLog(m, sched)[..a] == early[..a] && Committers(m, sched)[..a] == who[..a];
    if b < |early| {
      assert CommitLog(m, sched)[..b] == early[..b] && Committers(m, sched)[..b] == who[..b];
      EffectCounted(early, who, u, j, b);
    }
  }

  lemma Shuffle<T>(a: seq<T>, p: seq<T>, e: seq<T>, r: seq<T>, q: seq<T>)
    requires p + e == r + q
    ensures (a + p) + e == (a + r) + q
  {
    assert (a + p) + e == a + (p + e);
    assert (a + r) + q == a + (r + q);
  }

  lemma JoinOps(d: seq<Answer>, p: seq<Op>, s: seq<Op>, e: seq<Answer>, q: seq<Op>)
    requires p + s == OpsOf(e) + q
    ensures (OpsOf(d) + p) + s == OpsOf(d + e) + q
  {
    assert OpsOf(d + e) == OpsOf(d) + OpsOf(e);
    Shuffle(OpsOf(d), p, s, OpsOf(e), q);
  }
}
