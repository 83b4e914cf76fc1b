/** What every operation keeps: distinct ids, and the agreement between a reservation's status
    and the money recorded for it. */
module Ledger {
  import opened Prelude
  import opened Folds
  import opened Tables
  import opened Requests

  /** The rows stand in strictly increasing id order, none above the counter. */
  ghost predicate Ids(db: Db) {
    && (forall i, j :: 0 <= i < j < |db.reservations| ==> db.reservations[i].id < db.reservations[j].id)
    && (forall i :: 0 <= i < |db.reservations| ==> db.reservations[i].id <= db.lastId)
  }

  function OfKind(id: int, kind: Kind): Transaction -> bool {
    (t: Transaction) => t.reservationId == id && t.kind == kind
  }

  /** One payment iff the status is PLATITA or ANULATA, one refund iff it is ANULATA. */
  ghost predicate RowBalanced(txs: seq<Transaction>, r: Reservation) {
    && Count(txs, OfKind(r.id, Incasare)) == (if r.status == Platita || r.status == Anulata then 1 else 0)
    && Count(txs, OfKind(r.id, Ramburs)) == (if r.status == Anulata then 1 else 0)
  }

  ghost predicate HasRow(rows: seq<Reservation>, id: int) {
    exists i :: 0 <= i < |rows| && rows[i].id == id
  }

  ghost predicate Balanced(db: Db) {
    && (forall i :: 0 <= i < |db.reservations| ==> RowBalanced(db.transactions, db.reservations[i]))
    && (forall j :: 0 <= j < |db.transactions| ==> HasRow(db.reservations, db.transactions[j].reservationId))
    && (forall j :: 0 <= j < |db.transactions| && db.transactions[j].kind == Ramburs ==>
          FirstPayment(db.transactions, db.transactions[j].reservationId) == Some(-db.transactions[j].amount))
  }

  ghost predicate Sound(db: Db) {
    Ids(db) && Balanced(db)
  }

  // ---------------------------------------------------------------- lemmas about single statements

  /** An `UPDATE ... WHERE id = ?` that reports a change touched exactly one row. */
  lemma OneRow(db: Db, id: int, from: Status, to: Status) returns (i: nat)
    requires Ids(db) && Changes(db, ById(id, from)) > 0
    ensures i < |db.reservations| && db.reservations[i].id == id && db.reservations[i].status == from
    ensures SetStatus(db.reservations, ById(id, from), to)
         == db.reservations[i := db.reservations[i].(status := to)]
    ensures forall j :: 0 <= j < |db.reservations| && j != i ==> db.reservations[j].id != id
    ensures Changes(db, ById(id, from)) == 1
  {
    var w := ById(id, from);
    var p := (r: Reservation) => Matches(w, r);
    CountZero(db.reservations, p);
    i :| 0 <= i < |db.reservations| && p(db.reservations[i]);
    CountOne(db.reservations, i, p);
  }

  lemma NoRowChanged(db: Db, w: Where, to: Status)
    requires Changes(db, w) == 0
    ensures UpdateStatus(db, w, to) == db
  {
    CountZero(db.reservations, (r: Reservation) => Matches(w, r));
    assert SetStatus(db.reservations, w, to) == db.reservations;
  }

  lemma {:induction false} PaymentFound(txs: seq<Transaction>, id: int)
    ensures FirstPayment(txs, id).Some? <==> Count(txs, OfKind(id, Incasare)) > 0
  {
    if txs != [] {
      PaymentFound(txs[..|txs| - 1], id);
    }
  }

  lemma FirstPaymentSnoc(txs: seq<Transaction>, t: Transaction, id: int)
    ensures FirstPayment(txs + [t], id)
         == if FirstPayment(txs, id).Some? then FirstPayment(txs, id)
            else if IsPayment(t, id) then Some(t.amount) else None
  {
    assert (txs + [t])[..|txs|] == txs;
  }

  /** No money is recorded for an id that no row has. */
  lemma NothingRecorded(db: Db, id: int, kind: Kind)
    requires Balanced(db) && !HasRow(db.reservations, id)
    ensures Count(db.transactions, OfKind(id, kind)) == 0
  {
    CountZero(db.transactions, OfKind(id, kind));
  }

  // ---------------------------------------------------------------- preservation

  lemma ReserveKeeps(db: Db, req: Request, now: int)
    requires Sound(db)
    ensures Sound(InsertReservation(db, req, now))
  {
    hide FirstPayment, OfKind;
    var after := InsertReservation(db, req, now);
    forall i | 0 <= i < |after.reservations| ensures RowBalanced(after.transactions, after.reservations[i]) {
      if i == |db.reservations| {
        NothingRecorded(db, db.lastId + 1, Incasare);
        NothingRecorded(db, db.lastId + 1, Ramburs);
      } else {
        assert RowBalanced(db.transactions, db.reservations[i]);
      }
    }
    forall j | 0 <= j < |after.transactions|
      ensures HasRow(after.reservations, after.transactions[j].reservationId)
    {
      SameIds(db.reservations, after.reservations, db.transactions[j].reservationId);
    }
  }

  /** Move row `i` from `from` to `to` and record `t` for it. */
  function Record(db: Db, i: nat, to: Status, t: Transaction): Db
    requires i < |db.reservations|
  {
    db.(reservations := db.reservations[i := db.reservations[i].(status := to)],
        transactions := db.transactions + [t])
  }

  lemma RecordKeepsRows(db: Db, i: nat, to: Status, t: Transaction)
    requires Sound(db) && i < |db.reservations| && t.reservationId == db.reservations[i].id
    requires RowBalanced(db.transactions + [t], db.reservations[i].(status := to))
    ensures Ids(Record(db, i, to, t))
    ensures forall k :: 0 <= k < |db.reservations| ==>
                          RowBalanced(db.transactions + [t], Record(db, i, to, t).reservations[k])
    ensures forall j :: 0 <= j <= |db.transactions| ==>
                          HasRow(Record(db, i, to, t).reservations, (db.transactions + [t])[j].reservationId)
  {
    var after := Record(db, i, to, t);
    forall k | 0 <= k < |db.reservations| ensures RowBalanced(after.transactions, after.reservations[k]) {
      CountSnoc(db.transactions, t, OfKind(db.reservations[k].id, Incasare));
      CountSnoc(db.transactions, t, OfKind(db.reservations[k].id, Ramburs));
    }
    forall j | 0 <= j <= |db.transactions| ensures HasRow(after.reservations, after.transactions[j].reservationId) {
      if j < |db.transactions| {
        SameIds(db.reservations, after.reservations, db.transactions[j].reservationId);
      } else {
        assert after.reservations[i].id == t.reservationId;
      }
    }
  }

  /** One payment or refund, recorded together with the status it belongs to, keeps the ledger. */
  lemma RecordKeeps(db: Db, i: nat, to: Status, t: Transaction)
    requires Sound(db) && i < |db.reservations| && t.reservationId == db.reservations[i].id
    requires RowBalanced(db.transactions + [t], db.reservations[i].(status := to))
    requires t.kind == Ramburs ==> FirstPayment(db.transactions, t.reservationId) == Some(-t.amount)
    ensures Sound(Record(db, i, to, t))
  {
    hide RowBalanced, HasRow, Ids;
    RecordKeepsRows(db, i, to, t);
    var txs := db.transactions + [t];
    forall j | 0 <= j <= |db.transactions| && txs[j].kind == Ramburs
      ensures FirstPayment(txs, txs[j].reservationId) == Some(-txs[j].amount)
    {
      FirstPaymentSnoc(db.transactions, t, txs[j].reservationId);
    }
  }

  /** A successful payment is exactly: row `i` becomes PLATITA and its INCASARE is recorded. */
  lemma PayRecords(db: Db, id: int, amount: real) returns (i: nat)
    requires Sound(db) && Changes(db, ById(id, Rezervare)) > 0
    ensures i < |db.reservations| && db.reservations[i].id == id && db.reservations[i].status == Rezervare
    ensures forall j :: 0 <= j < |db.reservations| && j != i ==> db.reservations[j].id != id
    ensures DoPay(db, id, amount).0 == Record(db, i, Platita, Transaction(id, Incasare, amount))
    ensures Sound(DoPay(db, id, amount).0)
  {
    i := OneRow(db, id, Rezervare, Platita);
    var t := Transaction(id, Incasare, amount);
    CountSnoc(db.transactions, t, OfKind(id, Incasare));
    CountSnoc(db.transactions, t, OfKind(id, Ramburs));
    assert RowBalanced(db.transactions, db.reservations[i]);
    RecordKeeps(db, i, Platita, t);
  }

  /** A successful cancellation is exactly: row `i` becomes ANULATA and its payment is returned. */
  lemma CancelRecords(db: Db, id: int, paid: real) returns (i: nat)
    requires Sound(db) && Changes(db, ById(id, Platita)) > 0 && FirstPayment(db.transactions, id) == Some(paid)
    ensures i < |db.reservations| && db.reservations[i].id == id && db.reservations[i].status == Platita
    ensures forall j :: 0 <= j < |db.reservations| && j != i ==> db.reservations[j].id != id
    ensures DoCancel(db, id).0 == Record(db, i, Anulata, Transaction(id, Ramburs, -paid))
    ensures Sound(DoCancel(db, id).0)
  {
    i := OneRow(db, id, Platita, Anulata);
    var t := Transaction(id, Ramburs, -paid);
    CountSnoc(db.transactions, t, OfKind(id, Incasare));
    CountSnoc(db.transactions, t, OfKind(id, Ramburs));
    assert RowBalanced(db.transactions, db.reservations[i]);
    RecordKeeps(db, i, Anulata, t);
  }

  /** A change of statuses alone, of rows for which it makes no difference to the ledger. */
  lemma StatusesKeep(db: Db, rows: seq<Reservation>)
    requires Balanced(db) && |rows| == |db.reservations|
    requires forall i :: 0 <= i < |rows| ==>
                           rows[i] == db.reservations[i]
                           || (db.reservations[i].status == Rezervare && rows[i] == db.reservations[i].(status := Expirat))
    ensures Balanced(db.(reservations := rows))
  {
    hide FirstPayment, OfKind;
    forall i | 0 <= i < |rows| ensures RowBalanced(db.transactions, rows[i]) {
      assert RowBalanced(db.transactions, db.reservations[i]);
    }
    forall j | 0 <= j < |db.transactions| ensures HasRow(rows, db.transactions[j].reservationId) {
      SameIds(db.reservations, rows, db.transactions[j].reservationId);
    }
  }

  /** Rows that keep their ids, whatever else happens to them and after them, stay findable. */
  lemma SameIds(rows: seq<Reservation>, rows': seq<Reservation>, id: int)
    requires |rows| <= |rows'| && HasRow(rows, id)
    requires forall i :: 0 <= i < |rows| ==> rows'[i].id == rows[i].id
    ensures HasRow(rows', id)
  {
    var i :| 0 <= i < |rows| && rows[i].id == id;
    assert rows'[i].id == id;
  }

  lemma ExpireKeeps(db: Db, timeout: int, now: int)
    requires Sound(db)
    ensures Sound(Expire(db, timeout, now))
  {
    hide Balanced, Matches;
    ExpireRows(db, timeout, now);
    StatusesKeep(db, Expire(db, timeout, now).reservations);
  }

  lemma ExpireRows(db: Db, timeout: int, now: int)
    ensures var rows := Expire(db, timeout, now).reservations;
            && |rows| == |db.reservations|
            && forall i :: 0 <= i < |rows| ==>
                 rows[i] == db.reservations[i]
                 || (db.reservations[i].status == Rezervare && rows[i] == db.reservations[i].(status := Expirat))
  {
  }

  /** Every operation keeps the ledger in step with the reservations. */
  lemma AtomicKeeps(db: Db, op: Op, now: int)
    requires Sound(db)
    ensures Sound(Atomic(db, op, now).0)
  {
    hide Sound, Record, Expire, InsertReservation;
    match op
    case Reserve(req) => ReserveKeeps(db, req, now);
    case Pay(id, amount) =>
      if Changes(db, ById(id, Rezervare)) > 0 {
        var _ := PayRecords(db, id, amount);
      } else {
        NoRowChanged(db, ById(id, Rezervare), Platita);
      }
    case Cancel(id) =>
      var payment := FirstPayment(db.transactions, id);
      if payment.Some? && Changes(db, ById(id, Platita)) > 0 {
        var _ := CancelRecords(db, id, payment.value);
      } else if payment.Some? {
        NoRowChanged(db, ById(id, Platita), Anulata);
      }
    case Sweep(timeout) => ExpireKeeps(db, timeout, now);
  }

  // ---------------------------------------------------------------- what the replies reveal

  /** The status of the row with this id, if there is one. */
  ghost predicate HasStatus(db: Db, id: int, s: Status) {
    exists i :: 0 <= i < |db.reservations| && db.reservations[i].id == id && db.reservations[i].status == s
  }

  /** A cancellation is answered "Eroare la anulare" exactly for an already cancelled reservation,
      "refunded" exactly for a paid one, with the amount recorded for it, and "not paid or does not
      exist" for every other: unpaid, expired or unknown. */
  lemma CancelReply(db: Db, id: int)
    requires Sound(db)
    ensures DoCancel(db, id).1 == CancelFailed <==> HasStatus(db, id, Anulata)
    ensures DoCancel(db, id).1.Refunded? <==> HasStatus(db, id, Platita)
    ensures DoCancel(db, id).1.Refunded? ==>
              FirstPayment(db.transactions, id) == Some(DoCancel(db, id).1.amount)
    ensures DoCancel(db, id).1 == NotPaid <==> !HasStatus(db, id, Platita) && !HasStatus(db, id, Anulata)
  {
    PaymentFound(db.transactions, id);
    CountZero(db.reservations, (r: Reservation) => Matches(ById(id, Platita), r));
    if !HasRow(db.reservations, id) {
      NothingRecorded(db, id, Incasare);
    } else {
      var i :| 0 <= i < |db.reservations| && db.reservations[i].id == id;
      assert RowBalanced(db.transactions, db.reservations[i]);
    }
  }

  /** A payment is accepted exactly when the reservation is waiting for one. */
  lemma PayReply(db: Db, id: int, amount: real)
    requires Sound(db)
    ensures DoPay(db, id, amount).1 == Paid <==> HasStatus(db, id, Rezervare)
    ensures DoPay(db, id, amount).1 == PayRefused <==> !HasStatus(db, id, Rezervare)
  {
    CountZero(db.reservations, (r: Reservation) => Matches(ById(id, Rezervare), r));
  }
}
