/** Whole runs of the service: a log of operations in the order they took effect. */
module Runs {
  import opened Prelude
  import opened Folds
  import opened Tables
  import opened Requests
  import opened Ledger
  import opened Capacity
  import opened Audit
  import opened AuditAgreement

  datatype Entry = Entry(op: Op, reply: Reply, at: int)

  /** The tables after the logged operations. */
  function After(db: Db, log: seq<Entry>): Db {
    if log == [] then db
    else Atomic(After(db, log[..|log| - 1]), log[|log| - 1].op, log[|log| - 1].at).0
  }

  /** Every logged reply is the one the operation gives at that point. */
  ghost predicate Legal(db: Db, log: seq<Entry>) {
    log == [] || (
      && Legal(db, log[..|log| - 1])
      && log[|log| - 1].reply == Atomic(After(db, log[..|log| - 1]), log[|log| - 1].op, log[|log| - 1].at).1)
  }

  lemma RunSnoc(db: Db, log: seq<Entry>, e: Entry)
    ensures After(db, log + [e]) == Atomic(After(db, log), e.op, e.at).0
    ensures Legal(db, log + [e]) <==> Legal(db, log) && e.reply == Atomic(After(db, log), e.op, e.at).1
  {
    hide Atomic;
    assert (log + [e])[..|log|] == log;
  }

  /** The log with one more operation, answered as it must be. */
  function Extend(db: Db, log: seq<Entry>, op: Op, now: int): seq<Entry> {
    log + [Entry(op, Atomic(After(db, log), op, now).1, now)]
  }

  // ---------------------------------------------------------------- safety of every run

  ghost predicate Safe(db: Db) {
    Sound(db) && WithinCapacity(db) && InHours(db)
  }

  lemma SlotsEmpty(db: Db)
    requires Fresh(db)
    ensures Safe(db)
  {
  }

  /** Ledger, capacity and opening hours hold after any run. */
  lemma {:induction false} RunsAreSafe(db: Db, log: seq<Entry>)
    requires Safe(db)
    ensures Safe(After(db, log))
    ensures After(db, log).hourKey == db.hourKey && After(db, log).capacities == db.capacities
  {
    hide Atomic;
    if log != [] {
      var n := |log| - 1;
      RunsAreSafe(db, log[..n]);
      AtomicKeeps(After(db, log[..n]), log[n].op, log[n].at);
      CapacityKept(After(db, log[..n]), log[n].op, log[n].at);
      InHoursKept(After(db, log[..n]), log[n].op, log[n].at);
      AtomicKeepsSchema(After(db, log[..n]), log[n].op, log[n].at);
    }
  }

  // ---------------------------------------------------------------- replies against the ledger

  function PaidFor(id: int): Entry -> bool {
    (e: Entry) => e.op.Pay? && e.op.id == id && e.reply == Paid
  }

  function RefundedFor(id: int): Entry -> bool {
    (e: Entry) => e.op.Cancel? && e.op.id == id && e.reply.Refunded?
  }

  /** How one operation adds to the transactions of one id. */
  lemma AtomicRecords(db: Db, op: Op, now: int, id: int)
    ensures var e := Entry(op, Atomic(db, op, now).1, now);
            && Count(Atomic(db, op, now).0.transactions, OfKind(id, Incasare))
               == Count(db.transactions, OfKind(id, Incasare)) + (if PaidFor(id)(e) then 1 else 0)
            && Count(Atomic(db, op, now).0.transactions, OfKind(id, Ramburs))
               == Count(db.transactions, OfKind(id, Ramburs)) + (if RefundedFor(id)(e) then 1 else 0)
  {
    hide AuditReply, SetStatus, CapacityOf, LoadFor, EarlyReply, Count, Changes, FirstPayment;
    if op.Pay? {
      RecordCounts(db.transactions, Transaction(op.id, Incasare, op.amount), id);
    } else if op.Cancel? && FirstPayment(db.transactions, op.id).Some? {
      RecordCounts(db.transactions, Transaction(op.id, Ramburs, -FirstPayment(db.transactions, op.id).value), id);
    }
  }

  lemma RecordCounts(txs: seq<Transaction>, t: Transaction, id: int)
    ensures Count(txs + [t], OfKind(id, Incasare))
         == Count(txs, OfKind(id, Incasare)) + if t.reservationId == id && t.kind == Incasare then 1 else 0
    ensures Count(txs + [t], OfKind(id, Ramburs))
         == Count(txs, OfKind(id, Ramburs)) + if t.reservationId == id && t.kind == Ramburs then 1 else 0
  {
    CountSnoc(txs, t, OfKind(id, Incasare));
    CountSnoc(txs, t, OfKind(id, Ramburs));
  }

  /** The recorded payments and refunds are exactly the "paid" and "refunded" replies given. */
  lemma {:induction false} RepliesAreRecorded(db: Db, log: seq<Entry>, id: int)
    requires Fresh(db) && Legal(db, log)
    ensures Count(After(db, log).transactions, OfKind(id, Incasare)) == Count(log, PaidFor(id))
    ensures Count(After(db, log).transactions, OfKind(id, Ramburs)) == Count(log, RefundedFor(id))
  {
    hide Atomic;
    if log != [] {
      var n := |log| - 1;
      RepliesAreRecorded(db, log[..n], id);
      AtomicRecords(After(db, log[..n]), log[n].op, log[n].at, id);
      assert log[n] == Entry(log[n].op, log[n].reply, log[n].at);
    }
  }

  /** In a whole run each id is answered "paid" at most once and "refunded" at most once; a refund
      implies a payment, and an expired reservation was never paid. */
  lemma PaidAndRefundedOnce(db: Db, log: seq<Entry>, id: int)
    requires Fresh(db) && Legal(db, log)
    ensures Count(log, RefundedFor(id)) <= Count(log, PaidFor(id)) <= 1
    ensures HasStatus(After(db, log), id, Expirat) ==> Count(log, PaidFor(id)) == 0
    ensures HasStatus(After(db, log), id, Platita) <==> Count(log, PaidFor(id)) == 1 && Count(log, RefundedFor(id)) == 0
    ensures HasStatus(After(db, log), id, Anulata) <==> Count(log, RefundedFor(id)) == 1
  {
    SlotsEmpty(db);
    RunsAreSafe(db, log);
    RepliesAreRecorded(db, log, id);
    var end := After(db, log);
    if !HasRow(end.reservations, id) {
      NothingRecorded(end, id, Incasare);
      NothingRecorded(end, id, Ramburs);
    } else {
      var i :| 0 <= i < |end.reservations| && end.reservations[i].id == id;
      assert RowBalanced(end.transactions, end.reservations[i]);
    }
  }

  // ---------------------------------------------------------------- ids

  lemma CounterStep(db: Db, op: Op, now: int)
    ensures db.lastId <= Atomic(db, op, now).0.lastId
    ensures Atomic(db, op, now).1.Reserved? ==>
              db.lastId < Atomic(db, op, now).1.id <= Atomic(db, op, now).0.lastId
  {
    hide ReportOf, GroupRows, HasNullHour, SetStatus, CapacityOf, LoadFor, FirstPayment;
  }

  lemma {:induction false} CounterGrows(db: Db, log: seq<Entry>, k: nat)
    requires Legal(db, log) && k < |log|
    ensures db.lastId <= After(db, log).lastId
    ensures log[k].reply.Reserved? ==> db.lastId < log[k].reply.id <= After(db, log).lastId
    ensures k == |log| - 1 && log[k].reply.Reserved? ==> After(db, log[..k]).lastId < log[k].reply.id
  {
    hide Atomic;
    var n := |log| - 1;
    CounterStep(After(db, log[..n]), log[n].op, log[n].at);
    if n > 0 {
      CounterGrows(db, log[..n], if k < n then k else 0);
    }
  }

  /** No id is handed out twice: later grants carry larger ids. */
  lemma {:induction false} IdsNeverReused(db: Db, log: seq<Entry>, i: nat, j: nat)
    requires Legal(db, log) && i < j < |log| && log[i].reply.Reserved? && log[j].reply.Reserved?
    ensures log[i].reply.id < log[j].reply.id
  {
    hide Atomic;
    var n := |log| - 1;
    if j < n {
      IdsNeverReused(db, log[..n], i, j);
    } else {
      CounterGrows(db, log[..n], i);
      CounterStep(After(db, log[..n]), log[n].op, log[n].at);
    }
  }

  /** The answers that turn a request down. */
  predicate Refusal(reply: Reply) {
    match reply
    case BadFormat => true
    case Closed => true
    case Full(_) => true
    case PayRefused => true
    case NotPaid => true
    case CancelFailed => true
    case _ => false
  }

  /** Whoever is turned down has changed nothing. */
  lemma RefusalsChangeNothing(db: Db, op: Op, now: int)
    requires Refusal(Atomic(db, op, now).1)
    ensures Atomic(db, op, now).0 == db
  {
    hide SetStatus, UpdateStatus, Changes, EarlyReply, LoadFor, CapacityOf, FirstPayment, ReportOf, HasNullHour;
    match op
    case Pay(id, _) => NoRowChanged(db, ById(id, Rezervare), Platita);
    case Cancel(id) =>
      if FirstPayment(db.transactions, id).Some? {
        NoRowChanged(db, ById(id, Platita), Anulata);
      }
    case _ =>
  }

  /** How the tables grow: one row and one id for a grant, one transaction at the end for a payment
      or a refund, nothing otherwise. */
  lemma TablesGrow(db: Db, op: Op, now: int)
    ensures var (after, reply) := Atomic(db, op, now);
            && |after.reservations| == |db.reservations| + (if reply.Reserved? then 1 else 0)
            && after.lastId == db.lastId + (if reply.Reserved? then 1 else 0)
            && (reply.Reserved? ==> reply.id == after.lastId)
            && |after.transactions| == |db.transactions| + (if reply.Paid? || reply.Refunded? then 1 else 0)
            && db.transactions <= after.transactions
  {
    hide Changes, HourOf, LoadFor, CapacityOf, FirstPayment, ReportOf, HasNullHour, GroupRows;
  }

  /** Consecutive grants carry consecutive ids. */
  lemma {:induction false} IdsAreConsecutive(db: Db, log: seq<Entry>, k: nat)
    requires Legal(db, log) && k < |log| && log[k].reply.Reserved?
    ensures log[k].reply.id == db.lastId + Count(log[..k], Granted()) + 1
  {
    hide Atomic;
    CounterCounts(db, log[..k]) by {
      LegalPrefix(db, log, k);
    }
    EntryHappened(db, log, k);
    TablesGrow(After(db, log[..k]), log[k].op, log[k].at);
  }

  lemma {:induction false} CounterCounts(db: Db, log: seq<Entry>)
    requires Legal(db, log)
    ensures After(db, log).lastId == db.lastId + Count(log, Granted())
  {
    hide Atomic;
    if log != [] {
      var n := |log| - 1;
      CounterCounts(db, log[..n]);
      TablesGrow(After(db, log[..n]), log[n].op, log[n].at);
    }
  }

  // ---------------------------------------------------------------- status lifecycle

  /** The arrows of the status graph. */
  predicate Edge(s: Status, s': Status) {
    (s == Rezervare && (s' == Platita || s' == Expirat)) || (s == Platita && s' == Anulata)
  }

  /** Reachability in that graph. */
  predicate Reaches(s: Status, s': Status) {
    s == s' || Edge(s, s') || (s == Rezervare && s' == Anulata)
  }

  /** The operation, if any, that may take a row along an arrow. */
  predicate Causes(op: Op, now: int, r: Reservation, to: Status) {
    match op
    case Reserve(_) => false
    case Pay(id, _) => r.id == id && r.status == Rezervare && to == Platita
    case Cancel(id) => r.id == id && r.status == Platita && to == Anulata
    case Sweep(timeout) =>
      r.status == Rezervare && to == Expirat && timeout >= 0 && now - r.createdAt > timeout
  }

  /** One operation moves a row along one arrow at most, only the arrow it is for, and changes
      nothing else in it; rows never disappear. */
  lemma RowStep(db: Db, op: Op, now: int, i: nat)
    requires i < |db.reservations|
    ensures i < |Atomic(db, op, now).0.reservations|
    ensures var r, r' := db.reservations[i], Atomic(db, op, now).0.reservations[i];
            r' == r || (Causes(op, now, r, r'.status) && Edge(r.status, r'.status) && r' == r.(status := r'.status))
  {
  }

  lemma {:induction false} RowsPersist(db: Db, log: seq<Entry>, i: nat)
    requires i < |db.reservations|
    ensures i < |After(db, log).reservations|
    ensures After(db, log).reservations[i] == db.reservations[i].(status := After(db, log).reservations[i].status)
    ensures Reaches(db.reservations[i].status, After(db, log).reservations[i].status)
  {
    hide Atomic;
    if log != [] {
      var n := |log| - 1;
      RowsPersist(db, log[..n], i);
      RowStep(After(db, log[..n]), log[n].op, log[n].at, i);
    }
  }

  lemma {:induction false} AfterConcat(db: Db, first: seq<Entry>, second: seq<Entry>)
    ensures After(db, first + second) == After(After(db, first), second)
  {
    hide Atomic;
    if second == [] {
      assert first + second == first;
    } else {
      var n := |second| - 1;
      AfterConcat(db, first, second[..n]);
      assert (first + second)[..|first| + n] == first + second[..n];
    }
  }

  /** Between any two points of a run a reservation keeps its data and its status moves only
      along the graph. */
  lemma Lifecycle(db: Db, log: seq<Entry>, k: nat, i: nat)
    requires k <= |log| && i < |After(db, log[..k]).reservations|
    ensures i < |After(db, log).reservations|
    ensures var r, r' := After(db, log[..k]).reservations[i], After(db, log).reservations[i];
            r' == r.(status := r'.status) && Reaches(r.status, r'.status)
  {
    hide Atomic;
    assert log == log[..k] + log[k..];
    AfterConcat(db, log[..k], log[k..]);
    RowsPersist(After(db, log[..k]), log[k..], i);
  }

  lemma {:induction false} LegalPrefix(db: Db, log: seq<Entry>, k: nat)
    requires Legal(db, log) && k <= |log|
    ensures Legal(db, log[..k])
  {
    hide Atomic;
    if k < |log| {
      LegalPrefix(db, log[..|log| - 1], k);
      assert log[..|log| - 1][..k] == log[..k];
    } else {
      assert log[..k] == log;
    }
  }

  /** A run up to entry `k`, the entry, and the rest. */
  lemma SplitAt(db: Db, log: seq<Entry>, k: nat)
    requires k < |log|
    ensures After(db, log[..k + 1]) == Atomic(After(db, log[..k]), log[k].op, log[k].at).0
    ensures After(db, log) == After(After(db, log[..k + 1]), log[k + 1..])
  {
    hide Atomic;
    assert log[..k + 1] == log[..k] + [log[k]];
    RunSnoc(db, log[..k], log[k]);
    assert log == log[..k + 1] + log[k + 1..];
    AfterConcat(db, log[..k + 1], log[k + 1..]);
  }

  /** Entry `k` of a legal log, seen at the moment it happened. */
  lemma EntryHappened(db: Db, log: seq<Entry>, k: nat)
    requires Legal(db, log) && k < |log|
    ensures log[k].reply == Atomic(After(db, log[..k]), log[k].op, log[k].at).1
    ensures After(db, log[..k + 1]) == Atomic(After(db, log[..k]), log[k].op, log[k].at).0
    ensures After(db, log) == After(After(db, log[..k + 1]), log[k + 1..])
  {
    hide Atomic;
    SplitAt(db, log, k);
    LegalPrefix(db, log, k + 1);
    assert log[..k + 1] == log[..k] + [log[k]];
    RunSnoc(db, log[..k], log[k]);
  }

  /** A granted reservation stays in the table for good, under the id that was replied and with
      the data that was asked for. */
  lemma GrantsAreKept(db: Db, log: seq<Entry>, k: nat) returns (i: nat)
    requires Legal(db, log) && k < |log| && log[k].op.Reserve? && log[k].reply.Reserved?
    ensures i < |After(db, log).reservations|
    ensures var r, req := After(db, log).reservations[i], log[k].op.req;
            && r.id == log[k].reply.id && r.name == req.name && r.cnp == req.cnp && r.time == req.time
            && r.center == req.center && r.workshop == req.workshop && r.createdAt == log[k].at
  {
    EntryHappened(db, log, k);
    i := |After(db, log[..k]).reservations|;
    RowsPersist(After(db, log[..k + 1]), log[k + 1..], i);
  }

  // ---------------------------------------------------------------- refunds return what was paid

  lemma {:induction false} PaymentPersists(db: Db, log: seq<Entry>, id: int)
    requires FirstPayment(db.transactions, id).Some?
    ensures FirstPayment(After(db, log).transactions, id) == FirstPayment(db.transactions, id)
  {
    hide Atomic;
    if log != [] {
      var n := |log| - 1;
      PaymentPersists(db, log[..n], id);
      PaymentStep(After(db, log[..n]), log[n].op, log[n].at, id);
    }
  }

  lemma PaymentStep(db: Db, op: Op, now: int, id: int)
    requires FirstPayment(db.transactions, id).Some?
    ensures FirstPayment(Atomic(db, op, now).0.transactions, id) == FirstPayment(db.transactions, id)
  {
    if op.Pay? {
      FirstPaymentSnoc(db.transactions, Transaction(op.id, Incasare, op.amount), id);
    } else if op.Cancel? && FirstPayment(db.transactions, op.id).Some? {
      FirstPaymentSnoc(db.transactions,
                       Transaction(op.id, Ramburs, -FirstPayment(db.transactions, op.id).value), id);
    }
  }

  /** An accepted payment is from then on the recorded payment of that id. */
  lemma PaymentRecorded(db: Db, log: seq<Entry>, k: nat)
    requires Fresh(db) && Legal(db, log) && k < |log| && log[k].op.Pay? && log[k].reply == Paid
    ensures FirstPayment(After(db, log).transactions, log[k].op.id) == Some(log[k].op.amount)
  {
    var before, id, amount := After(db, log[..k]), log[k].op.id, log[k].op.amount;
    SlotsEmpty(db);
    RunsAreSafe(db, log[..k]);
    EntryHappened(db, log, k);
    var i := PayRecords(before, id, amount);
    assert RowBalanced(before.transactions, before.reservations[i]);
    PaymentFound(before.transactions, id);
    FirstPaymentSnoc(before.transactions, Transaction(id, Incasare, amount), id);
    PaymentPersists(After(db, log[..k + 1]), log[k + 1..], id);
  }

  /** A refund returns exactly the amount the same reservation was paid with. */
  lemma RefundIsThePayment(db: Db, log: seq<Entry>, i: nat, j: nat)
    requires Fresh(db) && Legal(db, log) && i < |log| && j < |log|
    requires log[i].op.Pay? && log[i].reply == Paid
    requires log[j].op.Cancel? && log[j].reply.Refunded? && log[j].op.id == log[i].op.id
    ensures log[j].reply.amount == log[i].op.amount
  {
    PaymentRecorded(db, log, i);
    var before, id := After(db, log[..j]), log[j].op.id;
    EntryHappened(db, log, j);
    PaymentStep(before, log[j].op, log[j].at, id);
    PaymentPersists(After(db, log[..j + 1]), log[j + 1..], id);
  }

  // ---------------------------------------------------------------- hold time

  ghost predicate NoneOlder(db: Db, cutoff: int) {
    forall i :: 0 <= i < |db.reservations| && db.reservations[i].status == Rezervare ==>
                  db.reservations[i].createdAt >= cutoff
  }

  lemma NoneOlderStep(db: Db, op: Op, now: int, cutoff: int)
    requires NoneOlder(db, cutoff) && now >= cutoff
    ensures NoneOlder(Atomic(db, op, now).0, cutoff)
  {
    var after := Atomic(db, op, now).0;
    forall i | 0 <= i < |after.reservations| && after.reservations[i].status == Rezervare
      ensures after.reservations[i].createdAt >= cutoff
    {
      if i < |db.reservations| {
        RowStep(db, op, now, i);
      }
    }
  }

  lemma {:induction false} NoneOlderRun(db: Db, log: seq<Entry>, cutoff: int)
    requires NoneOlder(db, cutoff) && forall j :: 0 <= j < |log| ==> log[j].at >= cutoff
    ensures NoneOlder(After(db, log), cutoff)
  {
    hide Atomic;
    if log != [] {
      var n := |log| - 1;
      NoneOlderRun(db, log[..n], cutoff);
      NoneOlderStep(After(db, log[..n]), log[n].op, log[n].at, cutoff);
    }
  }

  /** After a sweep at time `s` with timeout `T >= 0`, no unpaid reservation is older at time `t`
      than `T + (t - s)`, as long as the clock does not run backwards. */
  lemma {:induction false} HoldTime(db: Db, log: seq<Entry>, k: nat, t: int, i: nat)
    requires k < |log| && log[k].op.Sweep? && log[k].op.timeout >= 0
    requires forall j :: k <= j < |log| ==> log[j].at >= log[k].at
    requires i < |After(db, log).reservations| && After(db, log).reservations[i].status == Rezervare
    ensures t - After(db, log).reservations[i].createdAt <= log[k].op.timeout + (t - log[k].at)
  {
    hide Atomic, After;
    SplitAt(db, log, k);
    SweepLeavesYoung(After(db, log[..k]), log[k].op, log[k].at);
    NoneOlderRun(After(db, log[..k + 1]), log[k + 1..], log[k].at - log[k].op.timeout);
  }

  lemma SweepLeavesYoung(db: Db, op: Op, now: int)
    requires op.Sweep? && op.timeout >= 0
    ensures NoneOlder(Atomic(db, op, now).0, now - op.timeout)
  {
  }

  /** Every expired row was expired by some sweep at an age above that sweep's timeout. */
  lemma {:induction false} ExpiredLate(db: Db, log: seq<Entry>, i: nat) returns (k: nat)
    requires Fresh(db)
    requires i < |After(db, log).reservations| && After(db, log).reservations[i].status == Expirat
    ensures k < |log| && log[k].op.Sweep? && log[k].op.timeout >= 0
    ensures i < |After(db, log[..k]).reservations| && After(db, log[..k]).reservations[i].status == Rezervare
    ensures log[k].at - After(db, log).reservations[i].createdAt > log[k].op.timeout
  {
    var n := |log| - 1;
    var before := After(db, log[..n]);
    assert i < |before.reservations|;
    RowStep(before, log[n].op, log[n].at, i);
    if before.reservations[i].status == Expirat {
      k := ExpiredLate(db, log[..n], i);
      assert log[..n][..k] == log[..k];
    } else {
      k := n;
    }
  }

  // ---------------------------------------------------------------- exact admission

  function AsksFor(db: Db, c: int, w: int, k: string): Entry -> bool {
    (e: Entry) => Targets(db, e.op, c, w, k)
  }

  function GrantedFor(db: Db, c: int, w: int, k: string): Entry -> bool {
    (e: Entry) => Targets(db, e.op, c, w, k) && e.reply.Reserved?
  }

  /** Free places of a slot. */
  function Free(db: Db, c: int, w: int, k: string): nat {
    NonNegative(CapacityOf(db, c, w) - SlotLoad(db, c, w, k))
  }

  /** Without cancellations and sweeps, `n` requests for a slot are granted exactly
      `min(n, free places)` times, in whatever order and among whatever other operations. */
  lemma {:induction false} ExactAdmission(db: Db, log: seq<Entry>, c: int, w: int, k: string)
    requires Legal(db, log)
    requires forall j :: 0 <= j < |log| ==> log[j].op.Reserve? || log[j].op.Pay?
    ensures Count(log, GrantedFor(db, c, w, k)) == Min(Count(log, AsksFor(db, c, w, k)), Free(db, c, w, k))
    ensures SlotLoad(After(db, log), c, w, k) == SlotLoad(db, c, w, k) + Count(log, GrantedFor(db, c, w, k))
    ensures After(db, log).hourKey == db.hourKey && After(db, log).capacities == db.capacities
  {
    hide Atomic;
    if log != [] {
      var n := |log| - 1;
      var before := After(db, log[..n]);
      ExactAdmission(db, log[..n], c, w, k);
      SlotStep(before, log[n].op, log[n].at, c, w, k);
      AtomicKeepsSchema(before, log[n].op, log[n].at);
      assert Targets(before, log[n].op, c, w, k) == Targets(db, log[n].op, c, w, k);
    }
  }

  // ---------------------------------------------------------------- the exact account of a slot

  /** The refunds of a run whose reservation stood in the slot. */
  ghost function RefundsOf(db: Db, log: seq<Entry>, c: int, w: int, k: string): nat {
    if log == [] then 0
    else
      var n := |log| - 1;
      var here := log[n].op.Cancel? && log[n].reply.Refunded? && HasPlace(After(db, log[..n]), log[n].op.id, c, w, k);
      RefundsOf(db, log[..n], c, w, k) + if here then 1 else 0
  }

  /** The rows of the slot that the sweeps of a run expired. */
  function ExpirationsOf(db: Db, log: seq<Entry>, c: int, w: int, k: string): nat {
    if log == [] then 0
    else
      var n := |log| - 1;
      var before := After(db, log[..n]);
      ExpirationsOf(db, log[..n], c, w, k)
      + if log[n].op.Sweep?
        then Count(before.reservations,
                   Leaving(before.hourKey, ExpiryWhere(log[n].op.timeout, log[n].at), c, w, k))
        else 0
  }

  /** Over any run: the load of a slot is what it was, plus the grants for it, minus the refunds of
      reservations in it, minus those of its reservations that a sweep expired. */
  lemma {:induction false} LoadAccount(db: Db, log: seq<Entry>, c: int, w: int, k: string)
    requires Sound(db) && Legal(db, log)
    ensures SlotLoad(After(db, log), c, w, k) + RefundsOf(db, log, c, w, k) + ExpirationsOf(db, log, c, w, k)
         == SlotLoad(db, c, w, k) + Count(log, GrantedFor(db, c, w, k))
    ensures Sound(After(db, log))
    ensures After(db, log).hourKey == db.hourKey && After(db, log).capacities == db.capacities
  {
    hide Atomic, SlotLoad, Sound, HasPlace, Leaving;
    if log != [] {
      var n := |log| - 1;
      var before, op, now := After(db, log[..n]), log[n].op, log[n].at;
      LoadAccount(db, log[..n], c, w, k);
      AtomicKeeps(before, op, now);
      AtomicKeepsSchema(before, op, now);
      SlotStep(before, op, now, c, w, k);
      FreedByEntry(before, op, now, c, w, k);
      assert Targets(before, op, c, w, k) == Targets(db, op, c, w, k);
    }
  }

  /** The places one operation frees are those of a refund or of expirations. */
  lemma FreedByEntry(db: Db, op: Op, now: int, c: int, w: int, k: string)
    requires Sound(db)
    ensures Freed(db, op, now, c, w, k)
         == (if op.Cancel? && Atomic(db, op, now).1.Refunded? && HasPlace(db, op.id, c, w, k) then 1 else 0)
            + (if op.Sweep?
               then Count(db.reservations, Leaving(db.hourKey, ExpiryWhere(op.timeout, now), c, w, k)) else 0)
  {
    if op.Cancel? {
      RefundFrees(db, op.id, now, c, w, k);
    }
  }

  // ---------------------------------------------------------------- repeated requests

  /** The log of asking `n` times for the same thing. */
  function Repeated(db: Db, req: Request, now: int, n: nat): seq<Entry> {
    if n == 0 then []
    else
      Extend(db, Repeated(db, req, now, n - 1), Reserve(req), now)
  }

  function Granted(): Entry -> bool {
    (e: Entry) => e.reply.Reserved?
  }

  /** What `n` equal requests obtain: with a key the free places, without one everything. */
  function Obtainable(db: Db, req: Request, n: nat): nat {
    match db.hourKey(req.time)
    case Some(k) => Min(n, Free(db, req.center, req.workshop, k))
    case None => if CapacityOf(db, req.center, req.workshop) > 0 then n else 0
  }

  /** `log` asked `n` times for `req` and obtained what there was. */
  ghost predicate ObtainedAll(db: Db, req: Request, log: seq<Entry>, n: nat) {
    && |log| == n && Legal(db, log)
    && Count(log, Granted()) == Obtainable(db, req, n)
    && After(db, log).hourKey == db.hourKey && After(db, log).capacities == db.capacities
    && forall k :: db.hourKey(req.time) == Some(k) ==>
                     SlotLoad(After(db, log), req.center, req.workshop, k)
                     == SlotLoad(db, req.center, req.workshop, k) + Obtainable(db, req, n)
  }

  /** The capacity limits repeated requests exactly when the engine can read the time: with a key
      the grants stop at the free places, without one they never stop. */
  lemma {:induction false} RepeatedGrants(db: Db, req: Request, now: int, n: nat)
    requires EarlyReply(req).None?
    ensures ObtainedAll(db, req, Repeated(db, req, now, n), n)
  {
    if n > 0 {
      hide ObtainedAll;
      RepeatedGrants(db, req, now, n - 1);
      AskAgain(db, Repeated(db, req, now, n - 1), req, now, n - 1);
    }
  }

  lemma AskAgain(db: Db, log: seq<Entry>, req: Request, now: int, n: nat)
    requires EarlyReply(req).None? && ObtainedAll(db, req, log, n)
    ensures ObtainedAll(db, req, Extend(db, log, Reserve(req), now), n + 1)
  {
    hide After, Legal, Atomic, DoReserve, SlotLoad, Obtainable;
    ExtendRepeated(db, log, req, now);
    OneMoreRequest(db, After(db, log), req, now, n);
  }

  lemma ExtendRepeated(db: Db, log: seq<Entry>, req: Request, now: int)
    requires Legal(db, log)
    ensures var longer := Extend(db, log, Reserve(req), now);
            && Legal(db, longer) && After(db, longer) == DoReserve(After(db, log), req, now).0
            && After(db, longer).hourKey == After(db, log).hourKey
            && After(db, longer).capacities == After(db, log).capacities
            && Count(longer, Granted())
               == Count(log, Granted()) + (if DoReserve(After(db, log), req, now).1.Reserved? then 1 else 0)
  {
    var e := Entry(Reserve(req), DoReserve(After(db, log), req, now).1, now);
    RunSnoc(db, log, e);
    CountSnoc(log, e, Granted());
  }

  /** The step of the induction: one more equal request, after `n` of them. */
  lemma OneMoreRequest(db: Db, before: Db, req: Request, now: int, n: nat)
    requires EarlyReply(req).None?
    requires before.hourKey == db.hourKey && before.capacities == db.capacities
    requires forall k :: db.hourKey(req.time) == Some(k) ==>
                           SlotLoad(before, req.center, req.workshop, k)
                           == SlotLoad(db, req.center, req.workshop, k) + Obtainable(db, req, n)
    ensures Obtainable(db, req, n + 1)
         == Obtainable(db, req, n) + if DoReserve(before, req, now).1.Reserved? then 1 else 0
    ensures forall k :: db.hourKey(req.time) == Some(k) ==>
                          SlotLoad(DoReserve(before, req, now).0, req.center, req.workshop, k)
                          == SlotLoad(db, req.center, req.workshop, k) + Obtainable(db, req, n + 1)
  {
    if db.hourKey(req.time).Some? {
      ReserveSlot(before, req, now, req.center, req.workshop, db.hourKey(req.time).value);
    }
  }

  /** A request for ten o'clock on no day. */
  function Dateless(): Request {
    Request("A", "1", "xxxxxxxxxxx10", 1, 1)
  }

  /** The text passes the door: its characters 11 and 12 are an hour. */
  lemma DatelessPassesDoor()
    ensures EarlyReply(Dateless()).None?
  {
    DoorExact(Dateless());
  }

  /** The limit at a concrete input, on any tables and with any engine that reads no date in this
      text: eleven of eleven such requests are granted where ten may sit. */
  lemma GrantedBeyondCapacity(db: Db, now: int)
    requires db.hourKey("xxxxxxxxxxx10").None? && CapacityOf(db, 1, 1) == 10
    ensures var log := Repeated(db, Dateless(), now, 11);
            Legal(db, log) && Count(log, Granted()) == |log| == 11
  {
    DatelessPassesDoor();
    RepeatedGrants(db, Dateless(), now, 11);
  }

  // ---------------------------------------------------------------- audits along a run

  ghost predicate AllReadable(db: Db) {
    forall i :: 0 <= i < |db.reservations| ==> !UnreadableRow(db, db.reservations[i])
  }

  /** A request that would become such a row if it were granted. */
  predicate UnreadableRequest(db: Db, op: Op) {
    && op.Reserve? && EarlyReply(op.req).None?
    && (op.req.center, op.req.workshop) in db.capacities && db.hourKey(op.req.time).None?
  }

  lemma ReadableStep(db: Db, op: Op, now: int)
    requires AllReadable(db) && !UnreadableRequest(db, op)
    ensures AllReadable(Atomic(db, op, now).0)
  {
    hide AuditReply, SetStatus, FirstPayment, LoadFor, CapacityOf, Changes;
    var after := Atomic(db, op, now).0;
    AtomicKeepsSchema(db, op, now);
    forall i | 0 <= i < |after.reservations| ensures !UnreadableRow(after, after.reservations[i]) {
      if i < |db.reservations| {
        assert !UnreadableRow(db, db.reservations[i]);
        RowStep(db, op, now, i);
      }
    }
  }

  lemma {:induction false} ReadableRun(db: Db, log: seq<Entry>)
    requires AllReadable(db) && forall j :: 0 <= j < |log| ==> !UnreadableRequest(db, log[j].op)
    ensures AllReadable(After(db, log))
    ensures After(db, log).hourKey == db.hourKey && After(db, log).capacities == db.capacities
  {
    hide Atomic, AllReadable;
    if log != [] {
      var n := |log| - 1;
      ReadableRun(db, log[..n]);
      assert !UnreadableRequest(db, log[n].op);
      ReadableStep(After(db, log[..n]), log[n].op, log[n].at);
      AtomicKeepsSchema(After(db, log[..n]), log[n].op, log[n].at);
    }
  }

  /** One such grant for a place with a capacity row, and a round of the check at the same moment,
      whatever its timeout, is undefined. */
  lemma RoundUndefined(db: Db, now: int, timeout: int)
    requires db.hourKey("xxxxxxxxxxx10").None? && (1, 1) in db.capacities && db.capacities[(1, 1)] == 10
    ensures DoReserve(db, Dateless(), now).1.Reserved?
    ensures DoSweep(DoReserve(db, Dateless(), now).0, timeout, now).1 == Undefined
  {
    hide DoSweep;
    DatelessPassesDoor();
    var after := DoReserve(db, Dateless(), now).0;
    AuditDefinedExactly(after, timeout, now);
    assert UnreadableRow(after, after.reservations[|db.reservations|]);
  }

  /** If the engine can read the time of every request that passes the door for a place with a
      capacity row, every round of the check comes to its end. */
  lemma EveryAuditIsDefined(db: Db, log: seq<Entry>, k: nat)
    requires Fresh(db) && Legal(db, log) && k < |log| && log[k].op.Sweep?
    requires forall j :: 0 <= j < k ==> !UnreadableRequest(db, log[j].op)
    ensures log[k].reply.Audited?
  {
    var before := After(db, log[..k]);
    ReadableRun(db, log[..k]);
    hide AllReadable, After, Legal;
    EntryHappened(db, log, k);
    ReadableStep(before, log[k].op, log[k].at);
    AuditDefinedAfter(before, log[k].op.timeout, log[k].at);
    assert AllReadable(DoSweep(before, log[k].op.timeout, log[k].at).0);
  }

  /** Every audit of a run is right about the tables it leaves. */
  lemma EveryAuditIsRight(db: Db, log: seq<Entry>, k: nat)
    requires Legal(db, log) && k < |log| && log[k].op.Sweep? && log[k].reply.Audited?
    ensures OccupancyRight(After(db, log[..k + 1]), log[k].reply.report)
    ensures MoneyRight(After(db, log[..k + 1]), log[k].reply.report)
    ensures Count(After(db, log[..k + 1]).reservations, IsExpired())
         == Count(After(db, log[..k]).reservations, IsExpired()) + log[k].reply.report.expired
  {
    hide DoSweep, After, Legal, OccupancyRight, MoneyRight;
    EntryHappened(db, log, k);
    ReportRight(After(db, log[..k]), log[k].op.timeout, log[k].at);
    SweepReportsExpired(After(db, log[..k]), log[k].op.timeout, log[k].at);
  }

  /** Every audit of a run from empty tables reports no overlap; its balances are the amounts paid
      for the reservations then PLATITA, and they add up to all the money recorded. */
  lemma {:induction false} EveryAuditIsClean(db: Db, log: seq<Entry>, k: nat)
    requires Fresh(db) && Legal(db, log) && k < |log| && log[k].reply.Audited?
    ensures forall i :: 0 <= i < |log[k].reply.report.occupancy| ==>
                          log[k].reply.report.occupancy[i].verdict != Suprapunere
    ensures forall i :: 0 <= i < |log[k].reply.report.balances| ==>
                          var b := log[k].reply.report.balances[i];
                          b.total == Sum(After(db, log[..k + 1]).reservations,
                                         HeldAt(After(db, log[..k + 1]).transactions, b.center))
    ensures Sum(log[k].reply.report.balances, TotalOf()) == Sum(After(db, log[..k + 1]).transactions, Amount())
  {
    hide GroupRows, BalancesOf, LinesOf, Changes;
    SlotsEmpty(db);
    RunsAreSafe(db, log[..k + 1]);
    EntryHappened(db, log, k);
    var now, report := After(db, log[..k + 1]), log[k].reply.report;
    assert report == ReportOf(now, report.expired) && !HasNullHour(GroupRows(now, now.reservations));
    forall i | 0 <= i < |report.occupancy| ensures report.occupancy[i].verdict != Suprapunere {
      NoOverlapReported(now, report.expired, i);
    }
    BalanceConserved(now);
  }
}
