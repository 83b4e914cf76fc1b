/** The service's operations, each as one indivisible change of the tables (service.cpp).
    Interleaving.dfy shows that the statement-by-statement code behaves as these do. */
module Requests {
  import opened Prelude
  import opened Tables
  import opened Audit

  datatype Op =
    | Reserve(req: Request)
    | Pay(id: int, amount: real)
    | Cancel(id: int)
    | Sweep(timeout: int)

  datatype Reply =
    | BadFormat
    | Closed
    | Full(max: int)
    | Reserved(id: int)
    | Paid
    | PayRefused
    | NotPaid
    | Refunded(amount: real)
    | CancelFailed
    | Audited(report: Report)
    | Undefined

  // ---------------------------------------------------------------- opening hours

  predicate IsSpace(c: char) {
    c == ' ' || '\t' <= c <= '\r'
  }

  predicate IsDigit(c: char) {
    '0' <= c <= '9'
  }

  /** The value of the leading digits of `s`, on top of `acc`. */
  function Digits(s: string, acc: nat): nat
    decreases |s|
  {
    if s == [] || !IsDigit(s[0]) then acc
    else Digits(s[1..], 10 * acc + (s[0] as int - '0' as int))
  }

  /** `std::stoi`: white space, a sign, at least one digit, anything after. */
  function Stoi(s: string): Option<int>
    decreases |s|
  {
    if s == [] then None
    else if IsSpace(s[0]) then Stoi(s[1..])
    else
      var body := if s[0] == '-' || s[0] == '+' then s[1..] else s;
      if body == [] || !IsDigit(body[0]) then None
      else
        var magnitude: int := Digits(body, 0);
        Some(if s[0] == '-' then -magnitude else magnitude)
  }

  /** `stoi(time.substr(11, 2))`; `None` where the source catches an exception. */
  function HourOf(time: string): Option<int> {
    if |time| < 11 then None
    else Stoi(time[11..if |time| < 13 then |time| else 13])
  }

  /** The reply given before the lock is taken, if any. */
  function EarlyReply(req: Request): Option<Reply> {
    match HourOf(req.time)
    case None => Some(BadFormat)
    case Some(h) => if h < 9 || h >= 17 then Some(Closed) else None
  }

  // ---------------------------------------------------------------- the operations

  function DoReserve(db: Db, req: Request, now: int): (Db, Reply) {
    match EarlyReply(req)
    case Some(reply) => (db, reply)
    case None =>
      var cap := CapacityOf(db, req.center, req.workshop);
      if LoadFor(db, req) < cap then
        (InsertReservation(db, req, now), Reserved(db.lastId + 1))
      else (db, Full(cap))
  }

  function DoPay(db: Db, id: int, amount: real): (Db, Reply) {
    var w := ById(id, Rezervare);
    if Changes(db, w) > 0 then
      (InsertTransaction(UpdateStatus(db, w, Platita), Transaction(id, Incasare, amount)), Paid)
    else (UpdateStatus(db, w, Platita), PayRefused)
  }

  function DoCancel(db: Db, id: int): (Db, Reply) {
    var w := ById(id, Platita);
    match FirstPayment(db.transactions, id)
    case None => (db, NotPaid)
    case Some(paid) =>
      if Changes(db, w) > 0 then
        (InsertTransaction(UpdateStatus(db, w, Anulata), Transaction(id, Ramburs, -paid)), Refunded(paid))
      else (UpdateStatus(db, w, Anulata), CancelFailed)
  }

  function Expire(db: Db, timeout: int, now: int): Db {
    UpdateStatus(db, ExpiryWhere(timeout, now), Expirat)
  }

  /** The outcome of the audit queries; a NULL hour leaves the round undefined. */
  function AuditReply(db: Db, expired: nat): Reply {
    if HasNullHour(GroupRows(db, db.reservations)) then Undefined else Audited(ReportOf(db, expired))
  }

  function DoSweep(db: Db, timeout: int, now: int): (Db, Reply) {
    var swept := Expire(db, timeout, now);
    (swept, AuditReply(swept, Changes(db, ExpiryWhere(timeout, now))))
  }

  /** One whole request (or sweep) at time `now`. */
  function Atomic(db: Db, op: Op, now: int): (Db, Reply) {
    match op
    case Reserve(req) => DoReserve(db, req, now)
    case Pay(id, amount) => DoPay(db, id, amount)
    case Cancel(id) => DoCancel(db, id)
    case Sweep(timeout) => DoSweep(db, timeout, now)
  }
}
