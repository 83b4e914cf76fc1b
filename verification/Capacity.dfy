/** Admission control: what each operation does to the load of a slot, and the bounds that follow. */
module Capacity {
  import opened Prelude
  import opened Folds
  import opened Tables
  import opened Requests
  import opened Ledger

  /** No slot with a valid hour holds more active reservations than its capacity. */
  ghost predicate WithinCapacity(db: Db) {
    forall c, w, k :: SlotLoad(db, c, w, k) <= NonNegative(CapacityOf(db, c, w))
  }

  /** Does this request ask, within opening hours, for the given slot? */
  predicate Targets(db: Db, op: Op, c: int, w: int, k: string) {
    && op.Reserve? && op.req.center == c && op.req.workshop == w
    && db.hourKey(op.req.time) == Some(k) && EarlyReply(op.req).None?
  }

  // ---------------------------------------------------------------- effect on one slot

  /** A new row adds one place to its own slot, if the engine can read its time, and to no other. */
  lemma InsertSlot(db: Db, req: Request, now: int, c: int, w: int, k: string)
    ensures SlotLoad(InsertReservation(db, req, now), c, w, k)
         == SlotLoad(db, c, w, k)
            + if req.center == c && req.workshop == w && db.hourKey(req.time) == Some(k) then 1 else 0
  {
    var row := Reservation(db.lastId + 1, req.name, req.cnp, req.center, req.workshop, req.time, Rezervare, now);
    CountSnoc(db.reservations, row, InSlot(db.hourKey, c, w, k));
  }

  /** A reservation is granted iff the slot still has room, and then fills exactly one place of it;
      a refusal names the capacity. */
  lemma ReserveSlot(db: Db, req: Request, now: int, c: int, w: int, k: string)
    ensures var (after, reply) := DoReserve(db, req, now);
            && SlotLoad(after, c, w, k)
               == SlotLoad(db, c, w, k) + (if reply.Reserved? && Targets(db, Reserve(req), c, w, k) then 1 else 0)
            && (Targets(db, Reserve(req), c, w, k) ==>
                  (reply.Reserved? <==> SlotLoad(db, c, w, k) < CapacityOf(db, c, w)))
            && (reply.Full? ==> reply.max == CapacityOf(db, req.center, req.workshop) <= LoadFor(db, req))
            && ((req.center, req.workshop) !in db.capacities && EarlyReply(req).None? ==>
                  (reply.Reserved? <==> LoadFor(db, req) < 10))
  {
    hide SlotLoad, InsertReservation;
    InsertSlot(db, req, now, c, w, k);
  }

  lemma PaidKeepsPlace(hourKey: string -> Option<string>, r: Reservation, c: int, w: int, k: string)
    requires r.status == Rezervare
    ensures InSlot(hourKey, c, w, k)(r.(status := Platita)) == InSlot(hourKey, c, w, k)(r)
  {
  }

  /** A payment moves a row between two active states: no slot changes. */
  lemma PaySlot(db: Db, id: int, amount: real, c: int, w: int, k: string)
    ensures SlotLoad(DoPay(db, id, amount).0, c, w, k) == SlotLoad(db, c, w, k)
  {
    var p, cond := InSlot(db.hourKey, c, w, k), ById(id, Rezervare);
    var rows, paid := db.reservations, SetStatus(db.reservations, cond, Platita);
    forall i | 0 <= i < |rows| ensures p(paid[i]) == p(rows[i]) {
      if Matches(cond, rows[i]) {
        PaidKeepsPlace(db.hourKey, rows[i], c, w, k);
        assert paid[i] == rows[i].(status := Platita);
      } else {
        assert paid[i] == rows[i];
      }
    }
    CountSame(paid, rows, p, p);
  }

  /** The rows of a slot that an `UPDATE` with this condition matches. */
  function Leaving(hourKey: string -> Option<string>, cond: Where, c: int, w: int, k: string): Reservation -> bool {
    (r: Reservation) => InSlot(hourKey, c, w, k)(r) && Matches(cond, r)
  }

  /** An update to a state that is not active takes exactly the matched rows out of each slot. */
  lemma {:induction false} RowsReleased(rows: seq<Reservation>, hourKey: string -> Option<string>, cond: Where,
                                        to: Status, c: int, w: int, k: string)
    requires !Active(to)
    ensures Count(SetStatus(rows, cond, to), InSlot(hourKey, c, w, k)) + Count(rows, Leaving(hourKey, cond, c, w, k))
         == Count(rows, InSlot(hourKey, c, w, k))
  {
    if rows != [] {
      var n := |rows| - 1;
      RowsReleased(rows[..n], hourKey, cond, to, c, w, k);
      assert SetStatus(rows, cond, to)[..n] == SetStatus(rows[..n], cond, to);
    }
  }

  /** The places of a slot that an operation frees. */
  function Freed(db: Db, op: Op, now: int, c: int, w: int, k: string): nat {
    match op
    case Cancel(id) =>
      if FirstPayment(db.transactions, id).None? then 0
      else Count(db.reservations, Leaving(db.hourKey, ById(id, Platita), c, w, k))
    case Sweep(timeout) => Count(db.reservations, Leaving(db.hourKey, ExpiryWhere(timeout, now), c, w, k))
    case _ => 0
  }

  lemma RecordSlot(db: Db, i: nat, to: Status, t: Transaction, c: int, w: int, k: string)
    requires i < |db.reservations| && !Active(to)
    ensures SlotLoad(Record(db, i, to, t), c, w, k)
         == SlotLoad(db, c, w, k) - if InSlot(db.hourKey, c, w, k)(db.reservations[i]) then 1 else 0
  {
    CountUpdate(db.reservations, i, db.reservations[i].(status := to), InSlot(db.hourKey, c, w, k));
  }

  /** A refund frees exactly one place, in the slot of the cancelled row and nowhere else. */
  lemma CancelSlot(db: Db, id: int, c: int, w: int, k: string) returns (i: nat)
    requires Sound(db) && DoCancel(db, id).1.Refunded?
    ensures i < |db.reservations| && db.reservations[i].id == id
    ensures SlotLoad(DoCancel(db, id).0, c, w, k)
         == SlotLoad(db, c, w, k) - if InSlot(db.hourKey, c, w, k)(db.reservations[i]) then 1 else 0
  {
    i := CancelRecords(db, id, FirstPayment(db.transactions, id).value);
    RecordSlot(db, i, Anulata, Transaction(id, Ramburs, -FirstPayment(db.transactions, id).value), c, w, k);
  }

  /** The general effect, exactly: a granted request for that very slot fills one place of it, a
      cancellation or a sweep frees the places of the rows it takes, and nothing else changes it. */
  lemma SlotStep(db: Db, op: Op, now: int, c: int, w: int, k: string)
    ensures var (after, reply) := Atomic(db, op, now);
            && SlotLoad(after, c, w, k) + Freed(db, op, now, c, w, k)
               == SlotLoad(db, c, w, k) + (if reply.Reserved? && Targets(db, op, c, w, k) then 1 else 0)
            && (Targets(db, op, c, w, k) ==> (reply.Reserved? <==> SlotLoad(db, c, w, k) < CapacityOf(db, c, w)))
  {
    hide SetStatus, Changes, EarlyReply, LoadFor, CapacityOf;
    match op
    case Reserve(req) => ReserveSlot(db, req, now, c, w, k);
    case Pay(id, amount) => PaySlot(db, id, amount, c, w, k);
    case Cancel(id) => RowsReleased(db.reservations, db.hourKey, ById(id, Platita), Anulata, c, w, k);
    case Sweep(timeout) => RowsReleased(db.reservations, db.hourKey, ExpiryWhere(timeout, now), Expirat, c, w, k);
  }

  /** The reservation with this id is active and stands in this slot. */
  ghost predicate HasPlace(db: Db, id: int, c: int, w: int, k: string) {
    exists i :: 0 <= i < |db.reservations| && db.reservations[i].id == id
                && InSlot(db.hourKey, c, w, k)(db.reservations[i])
  }

  /** What a cancellation frees: its own place if it is refunded, otherwise nothing. */
  lemma RefundFrees(db: Db, id: int, now: int, c: int, w: int, k: string)
    requires Sound(db)
    ensures Freed(db, Cancel(id), now, c, w, k)
         == if DoCancel(db, id).1.Refunded? && HasPlace(db, id, c, w, k) then 1 else 0
  {
    var p := (r: Reservation) => Matches(ById(id, Platita), r);
    var q := Leaving(db.hourKey, ById(id, Platita), c, w, k);
    if DoCancel(db, id).1.Refunded? {
      var i := OneRow(db, id, Platita, Anulata);
      if q(db.reservations[i]) {
        CountOne(db.reservations, i, q);
      } else {
        CountZero(db.reservations, q);
      }
    } else {
      CountMono(db.reservations, db.reservations, q, p);
    }
  }

  lemma AtomicKeepsSchema(db: Db, op: Op, now: int)
    ensures Atomic(db, op, now).0.hourKey == db.hourKey
    ensures Atomic(db, op, now).0.capacities == db.capacities
  {
    hide SetStatus, Changes, FirstPayment, LoadFor, CapacityOf, EarlyReply;
  }

  /** No operation can overfill a slot. */
  lemma CapacityKept(db: Db, op: Op, now: int)
    requires WithinCapacity(db)
    ensures WithinCapacity(Atomic(db, op, now).0)
  {
    hide Atomic, SlotLoad, Targets;
    AtomicKeepsSchema(db, op, now);
    forall c, w, k
      ensures SlotLoad(Atomic(db, op, now).0, c, w, k) <= NonNegative(CapacityOf(Atomic(db, op, now).0, c, w))
    {
      SlotStep(db, op, now, c, w, k);
    }
  }

  // ---------------------------------------------------------------- the opening hours, exactly

  const DIGITS := "0123456789"

  const SPACES := " \t\n\U{0B}\U{0C}\r"

  lemma DigitsAndSpaces(c: char)
    ensures IsDigit(c) <==> c in DIGITS
    ensures IsSpace(c) <==> c in SPACES
  {
    if IsDigit(c) {
      assert DIGITS[c as int - '0' as int] == c;
    }
    if IsSpace(c) && c != ' ' {
      assert SPACES[c as int - '\t' as int + 1] == c;
    }
  }

  function DigitAt(time: string, i: nat): nat
    requires i < |time| && time[i] in DIGITS
  {
    time[i] as int - '0' as int
  }

  /** The texts a number can be read from: a digit, or a space or a sign followed by a digit. */
  predicate ReadableText(time: string) {
    && |time| >= 12
    && (time[11] in DIGITS || (|time| >= 13 && time[11] in SPACES + "+-" && time[12] in DIGITS))
  }

  /** The texts that count as an hour from 9 to 16: two digits in range, a 9 followed by nothing or
      by something else than a digit, or a 9 after a space or a plus sign. */
  predicate OpenText(time: string) {
    && |time| >= 12
    && (|| (|time| >= 13 && time[11] in DIGITS && time[12] in DIGITS
            && 9 <= 10 * DigitAt(time, 11) + DigitAt(time, 12) < 17)
        || (time[11] == '9' && (|time| == 12 || time[12] !in DIGITS))
        || (|time| >= 13 && time[11] in SPACES + "+" && time[12] == '9'))
  }

  /** What reading at most two characters as a number gives. */
  lemma TwoCharacters(s: string)
    requires |s| <= 2
    ensures Stoi(s).Some? <==>
              |s| >= 1 && (IsDigit(s[0])
                           || (|s| == 2 && (IsSpace(s[0]) || s[0] == '+' || s[0] == '-') && IsDigit(s[1])))
    ensures Stoi(s).Some? && 9 <= Stoi(s).value < 17 <==>
              && |s| >= 1
              && (|| (|s| == 2 && IsDigit(s[0]) && IsDigit(s[1])
                      && 9 <= 10 * (s[0] as int - '0' as int) + (s[1] as int - '0' as int) < 17)
                  || (s[0] == '9' && (|s| == 1 || !IsDigit(s[1])))
                  || (|s| == 2 && (IsSpace(s[0]) || s[0] == '+') && s[1] == '9'))
  {
    if |s| == 1 {
      assert s[1..] == [];
      assert IsDigit(s[0]) ==> Digits(s, 0) == Digits(s[1..], s[0] as int - '0' as int);
    } else if |s| == 2 {
      var tail := s[1..];
      assert tail[1..] == [];
      assert forall acc: nat :: IsDigit(tail[0]) ==>
                                  Digits(tail, acc) == Digits(tail[1..], 10 * acc + (tail[0] as int - '0' as int));
      assert IsDigit(s[0]) ==> Digits(s, 0) == Digits(tail, s[0] as int - '0' as int);
    }
  }

  /** A request passes the door exactly when characters 11 and 12 of its time are an hour from 9 to
      16; it is told of its format exactly when no number can be read, else that the hour is closed. */
  lemma DoorExact(req: Request)
    ensures EarlyReply(req).None? <==> OpenText(req.time)
    ensures EarlyReply(req) == Some(BadFormat) <==> !ReadableText(req.time)
    ensures EarlyReply(req) == Some(Closed) <==> ReadableText(req.time) && !OpenText(req.time)
  {
    hide Stoi, IsDigit, IsSpace;
    var time := req.time;
    if |time| >= 11 {
      TwoCharacters(time[11..Min(|time|, 13)]);
    }
    if |time| >= 12 {
      DigitsAndSpaces(time[11]);
      DigitsAndSpaces('9');
    }
    if |time| >= 13 {
      DigitsAndSpaces(time[12]);
    }
  }

  /** The four answers to a reservation, exactly; the capacity is that of the row, else ten. */
  lemma ReserveReply(db: Db, req: Request, now: int)
    ensures var reply := DoReserve(db, req, now).1;
            var place := (req.center, req.workshop);
            var seats := if place in db.capacities then db.capacities[place] else 10;
            && (reply == BadFormat <==> !ReadableText(req.time))
            && (reply == Closed <==> ReadableText(req.time) && !OpenText(req.time))
            && (reply == Full(seats) <==> OpenText(req.time) && LoadFor(db, req) >= seats)
            && (reply == Reserved(db.lastId + 1) <==> OpenText(req.time) && LoadFor(db, req) < seats)
  {
    hide EarlyReply, OpenText, ReadableText, LoadFor;
    DoorExact(req);
  }

  // ---------------------------------------------------------------- the daily bound

  ghost predicate InHours(db: Db) {
    forall i :: 0 <= i < |db.reservations| ==>
                  HourOf(db.reservations[i].time).Some? && 9 <= HourOf(db.reservations[i].time).value < 17
  }

  lemma InHoursKept(db: Db, op: Op, now: int)
    requires InHours(db)
    ensures InHours(Atomic(db, op, now).0)
  {
    var after := Atomic(db, op, now).0;
    forall i | 0 <= i < |after.reservations|
      ensures HourOf(after.reservations[i].time).Some? && 9 <= HourOf(after.reservations[i].time).value < 17
    {
      if i < |db.reservations| {
        assert after.reservations[i].time == db.reservations[i].time;
      }
    }
  }

  function TwoDigits(n: nat): string
    requires n < 100
  {
    [('0' as int + n / 10) as char, ('0' as int + n % 10) as char]
  }

  function KeyAt(day: string, hour: nat): string
    requires hour < 100
  {
    day + " " + TwoDigits(hour)
  }

  /** Text in the form the client sends, `day HH...`, which the engine keys by its own first 13 characters. */
  predicate Canonical(hourKey: string -> Option<string>, time: string) {
    && |time| >= 13 && time[10] == ' ' && IsDigit(time[11]) && IsDigit(time[12])
    && hourKey(time) == Some(time[..13])
  }

  /** For canonical text the hour tested at the door is the hour of the slot key. */
  lemma CanonicalHour(hourKey: string -> Option<string>, time: string)
    requires Canonical(hourKey, time)
    ensures HourOf(time).Some? && 0 <= HourOf(time).value < 100
    ensures hourKey(time) == Some(KeyAt(time[..10], HourOf(time).value))
  {
    var hh := time[11..13];
    var tens, ones := hh[0] as int - '0' as int, hh[1] as int - '0' as int;
    assert hh[1..][1..] == [];
    assert Digits(hh, 0) == Digits(hh[1..], tens);
    assert Digits(hh[1..], tens) == Digits(hh[1..][1..], 10 * tens + ones);
    assert HourOf(time) == Some(10 * tens + ones);
    assert TwoDigits(10 * tens + ones) == hh;
    assert time[..13] == time[..10] + " " + hh;
  }

  /** The canonical active rows of one day that start before `hour`. */
  function OnDay(hourKey: string -> Option<string>, c: int, w: int, day: string, hour: int): Reservation -> bool {
    (r: Reservation) =>
      && r.center == c && r.workshop == w && Active(r.status)
      && Canonical(hourKey, r.time) && r.time[..10] == day
      && HourOf(r.time).Some? && 9 <= HourOf(r.time).value < hour
  }

  lemma LastHour(hourKey: string -> Option<string>, c: int, w: int, day: string, hour: nat, r: Reservation)
    requires 9 < hour <= 17 && OnDay(hourKey, c, w, day, hour)(r)
    ensures OnDay(hourKey, c, w, day, hour - 1)(r) || InSlot(hourKey, c, w, KeyAt(day, hour - 1))(r)
  {
    CanonicalHour(hourKey, r.time);
  }

  /** One more opening hour adds at most one more capacity. */
  lemma OneMoreHour(db: Db, c: int, w: int, day: string, hour: nat)
    requires WithinCapacity(db) && 9 < hour <= 17
    ensures Count(db.reservations, OnDay(db.hourKey, c, w, day, hour))
         <= Count(db.reservations, OnDay(db.hourKey, c, w, day, hour - 1)) + NonNegative(CapacityOf(db, c, w))
  {
    var p, q := OnDay(db.hourKey, c, w, day, hour), OnDay(db.hourKey, c, w, day, hour - 1);
    var slot := InSlot(db.hourKey, c, w, KeyAt(day, hour - 1));
    forall i | 0 <= i < |db.reservations| && p(db.reservations[i])
      ensures q(db.reservations[i]) || slot(db.reservations[i])
    {
      LastHour(db.hourKey, c, w, day, hour, db.reservations[i]);
    }
    CountCovered(db.reservations, p, q, slot);
    assert SlotLoad(db, c, w, KeyAt(day, hour - 1)) <= NonNegative(CapacityOf(db, c, w));
  }

  /** From the opening hour to closing time. */
  lemma AllHours(db: Db, c: int, w: int, day: string)
    requires WithinCapacity(db)
    ensures Count(db.reservations, OnDay(db.hourKey, c, w, day, 17))
         <= Count(db.reservations, OnDay(db.hourKey, c, w, day, 9)) + 8 * NonNegative(CapacityOf(db, c, w))
  {
    hide WithinCapacity, OnDay, CapacityOf;
    OneMoreHour(db, c, w, day, 10);
    OneMoreHour(db, c, w, day, 11);
    OneMoreHour(db, c, w, day, 12);
    OneMoreHour(db, c, w, day, 13);
    OneMoreHour(db, c, w, day, 14);
    OneMoreHour(db, c, w, day, 15);
    OneMoreHour(db, c, w, day, 16);
    OneMoreHour(db, c, w, day, 17);
  }

  /** The canonical active rows of one day. */
  function OfDay(hourKey: string -> Option<string>, c: int, w: int, day: string): Reservation -> bool {
    (r: Reservation) =>
      && r.center == c && r.workshop == w && Active(r.status)
      && Canonical(hourKey, r.time) && r.time[..10] == day
  }

  /** Eight opening hours, hence at most eight times the capacity per day. */
  lemma DailyBound(db: Db, c: int, w: int, day: string)
    requires WithinCapacity(db) && InHours(db)
    ensures Count(db.reservations, OfDay(db.hourKey, c, w, day)) <= 8 * NonNegative(CapacityOf(db, c, w))
  {
    CountSame(db.reservations, db.reservations,
              OfDay(db.hourKey, c, w, day), OnDay(db.hourKey, c, w, day, 17));
    CountZero(db.reservations, OnDay(db.hourKey, c, w, day, 9));
    AllHours(db, c, w, day);
  }
}
