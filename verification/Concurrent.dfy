/** Guarantees of the running server: the properties of whole runs, for every schedule of every
    number of threads, as the clients and the tables see them. */
module Concurrent {
  import opened Prelude
  import opened Folds
  import opened Tables
  import opened Audit
  import opened Requests
  import opened Capacity
  import opened Runs
  import opened Interleaving

  // ---------------------------------------------------------------- the tables

  /** From empty tables, whenever the mutex is free the ledger, the capacities and the opening hours
      are respected; at any other moment they will be once the owner has run its next statement. */
  lemma {:induction false} SafeUnderConcurrency(db: Db, n: nat, now: int, sched: Schedule)
    requires Fresh(db)
    ensures Safe(Settle(Reached(Start(db, n, now), sched)))
    ensures Reached(Start(db, n, now), sched).lock.None? ==> Safe(Reached(Start(db, n, now), sched).db)
  {
    StartGood(db, n, now);
    EveryScheduleRefines(Start(db, n, now), sched);
    SlotsEmpty(db);
    RunsAreSafe(db, CommitLog(Start(db, n, now), sched));
  }

  /** The bound on the age of unpaid reservations, read off the tables when the mutex is free:
      `k` is any earlier sweep with a timeout of at least zero. */
  lemma {:induction false} HoldTimeUnderConcurrency(db: Db, n: nat, now: int, sched: Schedule, k: nat, i: nat)
    requires k < |CommitLog(Start(db, n, now), sched)|
    requires CommitLog(Start(db, n, now), sched)[k].op.Sweep?
    requires CommitLog(Start(db, n, now), sched)[k].op.timeout >= 0
    requires Reached(Start(db, n, now), sched).lock.None?
    requires i < |Reached(Start(db, n, now), sched).db.reservations|
    requires Reached(Start(db, n, now), sched).db.reservations[i].status == Rezervare
    ensures var m := Reached(Start(db, n, now), sched);
            var sweep := CommitLog(Start(db, n, now), sched)[k];
            && sweep.at <= m.now
            && m.now - m.db.reservations[i].createdAt <= sweep.op.timeout + (m.now - sweep.at)
  {
    var m0 := Start(db, n, now);
    var log := CommitLog(m0, sched);
    StartGood(db, n, now);
    EveryScheduleRefines(m0, sched);
    forall j | k <= j < |log| ensures log[j].at >= log[k].at {
      LogInTimeOrder(m0, sched, k, j);
    }
    LogInTimeOrder(m0, sched, k, k);
    HoldTime(db, log, k, Reached(m0, sched).now, i);
  }

  // ---------------------------------------------------------------- calls and answers of all threads

  function AnyStart(m: Machine, ch: Choice): seq<Op> {
    if ch.Begin? then Starts(m, ch, ch.t) else []
  }

  function AnyEnd(m: Machine, ch: Choice): seq<Answer> {
    if ch.Run? then Ends(m, ch, ch.t) else []
  }

  function AllCalls(m: Machine, sched: Schedule): seq<Op> {
    if sched == [] then []
    else AllCalls(m, sched[..|sched| - 1]) + AnyStart(Reached(m, sched[..|sched| - 1]), sched[|sched| - 1])
  }

  function AllAnswers(m: Machine, sched: Schedule): seq<Answer> {
    if sched == [] then []
    else AllAnswers(m, sched[..|sched| - 1]) + AnyEnd(Reached(m, sched[..|sched| - 1]), sched[|sched| - 1])
  }

  function OnEntry(p: Answer -> bool): Entry -> bool {
    (e: Entry) => p(Answer(e.op, e.reply))
  }

  function OnOp(q: Op -> bool): Entry -> bool {
    (e: Entry) => q(e.op)
  }

  function Owes(db: Db, p: Answer -> bool): Stage -> bool {
    (s: Stage) => PendingAnswer(db, s) != [] && p(PendingAnswer(db, s)[0])
  }

  function Wants(q: Op -> bool): Stage -> bool {
    (s: Stage) => PendingOp(s) != [] && q(PendingOp(s)[0])
  }

  function CommitOf(m: Machine, ch: Choice): seq<Entry> {
    if Commit(m, ch).Some? then [Commit(m, ch).value] else []
  }

  /** A thread owes at most one answer and wants at most one effect. */
  lemma OwesOne(db: Db, s: Stage, p: Answer -> bool, q: Op -> bool)
    ensures Count(PendingAnswer(db, s), p) == if Owes(db, p)(s) then 1 else 0
    ensures Count(PendingOp(s), q) == if Wants(q)(s) then 1 else 0
  {
  }

  lemma EffectCounts(m: Machine, ch: Choice, p: Answer -> bool, q: Op -> bool)
    requires !ch.Tick?
    ensures Count(Effects(m, ch, ch.t), p) == Count(CommitOf(m, ch), OnEntry(p))
    ensures Count(OpsOf(Effects(m, ch, ch.t)), q) == Count(CommitOf(m, ch), OnOp(q))
  {
    if ch.Run? && Commit(m, ch).Some? {
      var e := Commit(m, ch).value;
      assert OpsOf(Effects(m, ch, ch.t)) == [e.op];
    }
  }

  /** The clock, and choices that name no thread, touch no call. */
  lemma NothingHappens(m: Machine, ch: Choice)
    requires ch.Tick? || ch.t >= |m.threads|
    ensures Commit(m, ch).None? && AnyStart(m, ch) == [] && AnyEnd(m, ch) == []
    ensures Step(m, ch).threads == m.threads && Step(m, ch).db == m.db
  {
  }

  /** One step neither loses nor invents an answer. */
  lemma StepAnswers(m: Machine, ch: Choice, p: Answer -> bool)
    requires Good(m)
    ensures Count(m.threads, Owes(m.db, p)) + Count(CommitOf(m, ch), OnEntry(p))
         == Count(AnyEnd(m, ch), p) + Count(Step(m, ch).threads, Owes(Step(m, ch).db, p))
  {
    hide RunThread, Commit, AuditReply, PendingAnswer, PendingOp, Owes, Wants;
    var q := (op: Op) => false;
    if !ch.Tick? && ch.t < |m.threads| {
      var t, m' := ch.t, Step(m, ch);
      OthersUntouched(m, ch, p);
      CountShift(m.threads, m'.threads, t, Owes(m.db, p), Owes(m'.db, p));
      ThreadStep(m, ch, t);
      OneStepAnswers(PendingAnswer(m.db, m.threads[t]), Effects(m, ch, t), Ends(m, ch, t),
                     PendingAnswer(m'.db, m'.threads[t]), p);
      OwesOne(m.db, m.threads[t], p, q);
      OwesOne(m'.db, m'.threads[t], p, q);
      EffectCounts(m, ch, p, q);
    } else {
      NothingHappens(m, ch);
    }
  }

  /** One step neither loses nor invents a call. */
  lemma StepCalls(m: Machine, ch: Choice, q: Op -> bool)
    requires Good(m)
    ensures Count(m.threads, Wants(q)) + Count(AnyStart(m, ch), q)
         == Count(CommitOf(m, ch), OnOp(q)) + Count(Step(m, ch).threads, Wants(q))
  {
    hide RunThread, Commit, AuditReply, PendingAnswer, PendingOp, Owes, Wants;
    var p := (a: Answer) => false;
    if !ch.Tick? && ch.t < |m.threads| {
      var t, m' := ch.t, Step(m, ch);
      OthersUntouched(m, ch, p);
      CountShift(m.threads, m'.threads, t, Wants(q), Wants(q));
      ThreadStep(m, ch, t);
      OneStepOps(PendingOp(m.threads[t]), Starts(m, ch, t), Effects(m, ch, t), PendingOp(m'.threads[t]), q);
      OwesOne(m.db, m.threads[t], p, q);
      OwesOne(m'.db, m'.threads[t], p, q);
      EffectCounts(m, ch, p, q);
    } else {
      NothingHappens(m, ch);
    }
  }

  lemma OthersUntouched(m: Machine, ch: Choice, p: Answer -> bool)
    requires Good(m) && !ch.Tick? && ch.t < |m.threads|
    ensures |Step(m, ch).threads| == |m.threads|
    ensures forall u :: 0 <= u < |m.threads| && u != ch.t ==>
                          && Step(m, ch).threads[u] == m.threads[u]
                          && Owes(m.db, p)(m.threads[u]) == Owes(Step(m, ch).db, p)(m.threads[u])
  {
    if ch.Run? {
      RunOwn(m, ch.t);
      forall u | 0 <= u < |m.threads| && u != ch.t
        ensures PendingAnswer(m.db, m.threads[u]) == PendingAnswer(Step(m, ch).db, m.threads[u])
      {
        assert Holds(m.threads[u]) ==> Step(m, ch).db == m.db;
      }
    }
  }

  /** The same bookkeeping on the short lists of one step. */
  lemma OneStepAnswers(owed: seq<Answer>, effects: seq<Answer>, ends: seq<Answer>, owed': seq<Answer>, p: Answer -> bool)
    requires owed + effects == ends + owed'
    ensures Count(owed, p) + Count(effects, p) == Count(ends, p) + Count(owed', p)
  {
    CountConcat(owed, effects, p);
    CountConcat(ends, owed', p);
  }

  lemma OneStepOps(wanted: seq<Op>, starts: seq<Op>, effects: seq<Answer>, wanted': seq<Op>, q: Op -> bool)
    requires wanted + starts == OpsOf(effects) + wanted'
    ensures Count(wanted, q) + Count(starts, q) == Count(OpsOf(effects), q) + Count(wanted', q)
  {
    CountConcat(wanted, starts, q);
    CountConcat(OpsOf(effects), wanted', q);
  }

  lemma IdleOwesNothing(db: Db, s: Stage, p: Answer -> bool, q: Op -> bool)
    requires s.Idle?
    ensures !Owes(db, p)(s) && !Wants(q)(s)
  {
    assert PendingAnswer(db, s) == [] && PendingOp(s) == [];
  }

  /** Every effect is one call that was made, and becomes one answer: nothing is lost, duplicated
      or answered without having happened. */
  lemma {:induction false} EffectsAreCallsAndAnswers(m: Machine, sched: Schedule, p: Answer -> bool, q: Op -> bool)
    requires Good(m) && forall t :: 0 <= t < |m.threads| ==> m.threads[t].Idle?
    ensures Count(CommitLog(m, sched), OnEntry(p))
         == Count(AllAnswers(m, sched), p) + Count(Reached(m, sched).threads, Owes(Reached(m, sched).db, p))
    ensures Count(AllCalls(m, sched), q)
         == Count(CommitLog(m, sched), OnOp(q)) + Count(Reached(m, sched).threads, Wants(q))
  {
    hide Step, Commit;
    if sched == [] {
      assert Reached(m, sched) == m;
      forall t | 0 <= t < |m.threads| ensures !Owes(m.db, p)(m.threads[t]) && !Wants(q)(m.threads[t]) {
        IdleOwesNothing(m.db, m.threads[t], p, q);
      }
      CountZero(m.threads, Owes(m.db, p));
      CountZero(m.threads, Wants(q));
    } else {
      var n := |sched| - 1;
      var before := Reached(m, sched[..n]);
      EffectsAreCallsAndAnswers(m, sched[..n], p, q);
      ReachedGood(m, sched[..n]);
      StepAnswers(before, sched[n], p);
      StepCalls(before, sched[n], q);
      assert Reached(m, sched) == Step(before, sched[n]);
      ListsGrow(m, sched, p, q);
    }
  }

  lemma ListsGrow(m: Machine, sched: Schedule, p: Answer -> bool, q: Op -> bool)
    requires sched != []
    ensures var n := |sched| - 1;
            var before := Reached(m, sched[..n]);
            && Count(CommitLog(m, sched), OnEntry(p))
               == Count(CommitLog(m, sched[..n]), OnEntry(p)) + Count(CommitOf(before, sched[n]), OnEntry(p))
            && Count(CommitLog(m, sched), OnOp(q))
               == Count(CommitLog(m, sched[..n]), OnOp(q)) + Count(CommitOf(before, sched[n]), OnOp(q))
            && Count(AllAnswers(m, sched), p)
               == Count(AllAnswers(m, sched[..n]), p) + Count(AnyEnd(before, sched[n]), p)
            && Count(AllCalls(m, sched), q)
               == Count(AllCalls(m, sched[..n]), q) + Count(AnyStart(before, sched[n]), q)
  {
    var n := |sched| - 1;
    var before := Reached(m, sched[..n]);
    assert CommitLog(m, sched) == CommitLog(m, sched[..n]) + CommitOf(before, sched[n]);
    CountConcat(CommitLog(m, sched[..n]), CommitOf(before, sched[n]), OnEntry(p));
    CountConcat(CommitLog(m, sched[..n]), CommitOf(before, sched[n]), OnOp(q));
    CountConcat(AllAnswers(m, sched[..n]), AnyEnd(before, sched[n]), p);
    CountConcat(AllCalls(m, sched[..n]), AnyStart(before, sched[n]), q);
  }

  // ---------------------------------------------------------------- what the clients are told

  function SaysPaid(id: int): Answer -> bool {
    (a: Answer) => a.op.Pay? && a.op.id == id && a.reply == Paid
  }

  function SaysRefunded(id: int): Answer -> bool {
    (a: Answer) => a.op.Cancel? && a.op.id == id && a.reply.Refunded?
  }

  /** However the calls interleave, an id is answered "paid" at most once and "refunded" at most once. */
  lemma {:induction false} AnsweredOnce(db: Db, n: nat, now: int, sched: Schedule, id: int)
    requires Fresh(db)
    ensures Count(AllAnswers(Start(db, n, now), sched), SaysPaid(id)) <= 1
    ensures Count(AllAnswers(Start(db, n, now), sched), SaysRefunded(id)) <= 1
  {
    var m := Start(db, n, now);
    var log := CommitLog(m, sched);
    StartGood(db, n, now);
    EveryScheduleRefines(m, sched);
    PaidAndRefundedOnce(db, log, id);
    CountSame(log, log, OnEntry(SaysPaid(id)), PaidFor(id));
    CountSame(log, log, OnEntry(SaysRefunded(id)), RefundedFor(id));
    EffectsAreCallsAndAnswers(m, sched, SaysPaid(id), (op: Op) => false);
    EffectsAreCallsAndAnswers(m, sched, SaysRefunded(id), (op: Op) => false);
  }

  function SaysOverlap(): Answer -> bool {
    (a: Answer) =>
      a.reply.Audited? &&
      exists i :: 0 <= i < |a.reply.report.occupancy| && a.reply.report.occupancy[i].verdict == Suprapunere
  }

  /** No audit of any schedule ever reports an overlap. */
  lemma {:induction false} NoOverlapUnderConcurrency(db: Db, n: nat, now: int, sched: Schedule)
    requires Fresh(db)
    ensures Count(AllAnswers(Start(db, n, now), sched), SaysOverlap()) == 0
  {
    var m := Start(db, n, now);
    var log := CommitLog(m, sched);
    StartGood(db, n, now);
    EveryScheduleRefines(m, sched);
    EffectsAreCallsAndAnswers(m, sched, SaysOverlap(), (op: Op) => false);
    forall k | 0 <= k < |log| ensures !OnEntry(SaysOverlap())(log[k]) {
      if log[k].reply.Audited? {
        EveryAuditIsClean(db, log, k);
      }
    }
    CountZero(log, OnEntry(SaysOverlap()));
  }

  function AsksUnreadable(db: Db): Op -> bool {
    (op: Op) => UnreadableRequest(db, op)
  }

  function IsUndefined(): Answer -> bool {
    (a: Answer) => a.reply.Undefined?
  }

  /** If the engine can read the time of every request that passes the door for a place with a
      capacity row, no round of the check of any schedule is undefined. */
  lemma {:induction false} RoundsDefinedUnderConcurrency(db: Db, n: nat, now: int, sched: Schedule)
    requires Fresh(db) && Count(AllCalls(Start(db, n, now), sched), AsksUnreadable(db)) == 0
    ensures Count(AllAnswers(Start(db, n, now), sched), IsUndefined()) == 0
  {
    hide After, Legal, CommitLog, AllCalls, AllAnswers, Reached, UnreadableRequest;
    var m := Start(db, n, now);
    var log := CommitLog(m, sched);
    StartGood(db, n, now);
    EveryScheduleRefines(m, sched);
    EffectsAreCallsAndAnswers(m, sched, IsUndefined(), AsksUnreadable(db));
    CountZero(log, OnOp(AsksUnreadable(db)));
    forall j | 0 <= j < |log| ensures !UnreadableRequest(db, log[j].op) {
      assert !OnOp(AsksUnreadable(db))(log[j]);
    }
    forall k | 0 <= k < |log| ensures !OnEntry(IsUndefined())(log[k]) {
      OnlySweepsAreUndefined(db, log, k);
      if log[k].op.Sweep? {
        EveryAuditIsDefined(db, log, k);
      }
    }
    CountZero(log, OnEntry(IsUndefined()));
  }

  lemma OnlySweepsAreUndefined(db: Db, log: seq<Entry>, k: nat)
    requires Legal(db, log) && k < |log|
    ensures log[k].reply.Undefined? ==> log[k].op.Sweep?
  {
    hide After, Legal, DoSweep, CapacityOf, LoadFor, Changes, FirstPayment;
    EntryHappened(db, log, k);
  }

  function AsksSlot(db: Db, c: int, w: int, k: string): Op -> bool {
    (op: Op) => Targets(db, op, c, w, k)
  }

  function SaysReserved(db: Db, c: int, w: int, k: string): Answer -> bool {
    (a: Answer) => Targets(db, a.op, c, w, k) && a.reply.Reserved?
  }

  function Frees(): Op -> bool {
    (op: Op) => op.Cancel? || op.Sweep?
  }

  /** Clients competing for one slot: if nobody cancels and no sweep runs, then once all calls have
      been answered exactly `min(requests, free places)` of them have a place, whatever the schedule. */
  lemma {:induction false} ExactAdmissionUnderConcurrency(m: Machine, sched: Schedule, c: int, w: int, k: string)
    requires Good(m) && forall t :: 0 <= t < |m.threads| ==> m.threads[t].Idle?
    requires forall t :: 0 <= t < |Reached(m, sched).threads| ==> Reached(m, sched).threads[t].Idle?
    requires Count(AllCalls(m, sched), Frees()) == 0
    ensures Count(AllAnswers(m, sched), SaysReserved(Settle(m), c, w, k))
         == Min(Count(AllCalls(m, sched), AsksSlot(Settle(m), c, w, k)), Free(Settle(m), c, w, k))
  {
    hide After, Legal, CommitLog, AllCalls, AllAnswers, Reached, Settle;
    var db, log, end := Settle(m), CommitLog(m, sched), Reached(m, sched);
    var p, q := SaysReserved(db, c, w, k), AsksSlot(db, c, w, k);
    ReachedGood(m, sched);
    EveryScheduleRefines(m, sched);
    EffectsAreCallsAndAnswers(m, sched, p, q);
    EffectsAreCallsAndAnswers(m, sched, p, Frees());
    CountZero(log, OnOp(Frees()));
    forall j | 0 <= j < |log| ensures log[j].op.Reserve? || log[j].op.Pay? {
      assert !OnOp(Frees())(log[j]);
    }
    ExactAdmission(db, log, c, w, k);
    CountSame(log, log, OnEntry(p), GrantedFor(db, c, w, k));
    CountSame(log, log, OnOp(q), AsksFor(db, c, w, k));
    NoneWaiting(end, p, q);
  }

  lemma NoneWaiting(m: Machine, p: Answer -> bool, q: Op -> bool)
    requires forall t :: 0 <= t < |m.threads| ==> m.threads[t].Idle?
    ensures Count(m.threads, Owes(m.db, p)) == 0 && Count(m.threads, Wants(q)) == 0
  {
    forall t | 0 <= t < |m.threads| ensures !Owes(m.db, p)(m.threads[t]) && !Wants(q)(m.threads[t]) {
      IdleOwesNothing(m.db, m.threads[t], p, q);
    }
    CountZero(m.threads, Owes(m.db, p));
    CountZero(m.threads, Wants(q));
  }

  // ---------------------------------------------------------------- progress

  /** A thread that has something to do and is not blocked on the mutex. */
  predicate CanRun(m: Machine, t: nat) {
    t < |m.threads| && !m.threads[t].Idle? && (m.threads[t].Waiting? ==> m.lock.None?)
  }

  /** How many steps a call still needs at most. */
  function Rank(s: Stage): nat {
    match s
    case Idle => 0
    case Called(_) => 7
    case Waiting(_) => 6
    case Locked(_) => 5
    case GotCapacity(_, _) => 4
    case GotLoad(_, _, _) => 3
    case PaidRow(_, _) => 3
    case FoundPayment(_, _) => 4
    case CancelledRow(_, _) => 3
    case Expired(_, _) => 4
    case Grouped(_, _, _) => 3
    case Finishing(_, _) => 2
    case Returning(_, _) => 1
  }

  lemma RankDrops(m: Machine, t: nat)
    requires CanRun(m, t)
    ensures |RunThread(m, t).threads| == |m.threads|
    ensures RunThread(m, t).threads == m.threads[t := RunThread(m, t).threads[t]]
    ensures Rank(RunThread(m, t).threads[t]) < Rank(m.threads[t])
  {
    hide SetStatus, Changes, GroupRows, BalancesOf, LinesOf, Expire, FirstPayment, LoadFor, CapacityOf, EarlyReply;
  }

  /** Every step that is not blocked brings some answer nearer. */
  lemma RunDecreases(m: Machine, t: nat)
    requires CanRun(m, t)
    ensures Total(Step(m, Run(t)).threads, Rank) < Total(m.threads, Rank)
  {
    hide RunThread, Rank;
    RankDrops(m, t);
    TotalUpdate(m.threads, t, RunThread(m, t).threads[t], Rank);
  }

  /** No deadlock: while any call is unanswered some thread can take its next step, so with
      `RunDecreases` the calls in progress are all answered after boundedly many steps. */
  lemma NoDeadlock(m: Machine, t: nat) returns (u: nat)
    requires Good(m) && t < |m.threads| && !m.threads[t].Idle?
    ensures CanRun(m, u)
  {
    u := if m.lock.Some? then m.lock.value else t;
  }
}
