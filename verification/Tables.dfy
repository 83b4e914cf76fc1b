/** The three tables of `workshops.db` and the SQL statements the service runs on them.
    A statement is atomic and always succeeds; a `SELECT` is a function of the tables and an
    `UPDATE` or `INSERT` yields new tables. */
module Tables {
  import opened Prelude
  import opened Folds

  datatype Status = Rezervare | Platita | Anulata | Expirat

  datatype Request = Request(name: string, cnp: string, time: string, center: int, workshop: int)

  datatype Reservation = Reservation(
    id: int, name: string, cnp: string, center: int, workshop: int,
    time: string, status: Status, createdAt: int)

  datatype Kind = Incasare | Ramburs

  datatype Transaction = Transaction(reservationId: int, kind: Kind, amount: real)

  /** `hourKey` is the engine's `strftime('%Y-%m-%d %H', ·)`, `None` standing for NULL.
      `lastId` is the AUTOINCREMENT counter of the reservations table. */
  datatype Db = Db(
    hourKey: string -> Option<string>,
    capacities: map<(int, int), int>,
    reservations: seq<Reservation>,
    lastId: int,
    transactions: seq<Transaction>)

  const DEFAULT_CAPACITY := 10

  /** A database as `init` leaves it: the counter may have survived an earlier `DELETE`. */
  ghost predicate Fresh(db: Db) {
    db.reservations == [] && db.transactions == []
  }

  // ---------------------------------------------------------------- reservations: admission

  predicate Active(s: Status) {
    s == Rezervare || s == Platita
  }

  /** `SELECT capacity`, with the service's fallback when there is no row. */
  function CapacityOf(db: Db, center: int, workshop: int): int {
    if (center, workshop) in db.capacities then db.capacities[(center, workshop)] else DEFAULT_CAPACITY
  }

  /** The rows the admission query counts for one slot. */
  function InSlot(hourKey: string -> Option<string>, center: int, workshop: int, key: string): Reservation -> bool {
    (r: Reservation) =>
      r.center == center && r.workshop == workshop && hourKey(r.time) == Some(key) && Active(r.status)
  }

  function SlotLoad(db: Db, center: int, workshop: int, key: string): nat {
    Count(db.reservations, InSlot(db.hourKey, center, workshop, key))
  }

  /** `SELECT count(*)`: NULL equals nothing, so a time without a key counts no row. */
  function LoadFor(db: Db, req: Request): nat {
    match db.hourKey(req.time)
    case None => 0
    case Some(key) => SlotLoad(db, req.center, req.workshop, key)
  }

  function InsertReservation(db: Db, req: Request, now: int): Db {
    db.(reservations := db.reservations + [Reservation(
          db.lastId + 1, req.name, req.cnp, req.center, req.workshop, req.time, Rezervare, now)],
        lastId := db.lastId + 1)
  }

  // ---------------------------------------------------------------- reservations: status updates

  /** The `WHERE` clauses of the service's three `UPDATE` statements. */
  datatype Where = ById(id: int, from: Status) | Stale(cutoff: int) | NoRow

  predicate Matches(w: Where, r: Reservation) {
    match w
    case ById(id, from) => r.id == id && r.status == from
    case Stale(cutoff) => r.status == Rezervare && r.createdAt < cutoff
    case NoRow => false
  }

  function SetStatus(rows: seq<Reservation>, w: Where, to: Status): (updated: seq<Reservation>)
    ensures |updated| == |rows|
    ensures forall i :: 0 <= i < |rows| ==>
                          updated[i] == if Matches(w, rows[i]) then rows[i].(status := to) else rows[i]
  {
    seq(|rows|, i requires 0 <= i < |rows| =>
      if Matches(w, rows[i]) then rows[i].(status := to) else rows[i])
  }

  function UpdateStatus(db: Db, w: Where, to: Status): Db {
    db.(reservations := SetStatus(db.reservations, w, to))
  }

  /** `sqlite3_changes` after that `UPDATE`. */
  function Changes(db: Db, w: Where): nat {
    Count(db.reservations, (r: Reservation) => Matches(w, r))
  }

  /** The expiry condition `created_at < datetime('now', '-T seconds')`. For a negative `T` the
      modifier text is `--n seconds`, which the engine rejects: NULL, hence no row. */
  function ExpiryWhere(timeout: int, now: int): Where {
    if timeout >= 0 then Stale(now - timeout) else NoRow
  }

  // ---------------------------------------------------------------- transactions

  predicate IsPayment(t: Transaction, id: int) {
    t.reservationId == id && t.kind == Incasare
  }

  /** `SELECT amount ... type='INCASARE'`, first row in insertion order. */
  function FirstPayment(txs: seq<Transaction>, id: int): Option<real> {
    if txs == [] then None
    else
      var earlier := FirstPayment(txs[..|txs| - 1], id);
      var last := txs[|txs| - 1];
      if earlier.Some? then earlier
      else if IsPayment(last, id) then Some(last.amount)
      else None
  }

  function InsertTransaction(db: Db, t: Transaction): Db {
    db.(transactions := db.transactions + [t])
  }
}
