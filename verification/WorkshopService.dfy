/** The service's classes as written: statements run one after another on a database object,
    proved to have the effect and the reply of the indivisible operations. */
module WorkshopService {
  import opened Prelude
  import opened Tables
  import opened Audit
  import opened Requests

  class Database {
    const hourKey: string -> Option<string>
    var capacities: map<(int, int), int>
    var reservations: seq<Reservation>
    var lastId: int
    var transactions: seq<Transaction>

    /** The tables as a value. */
    function Value(): Db
      reads this
    {
      Db(hourKey, capacities, reservations, lastId, transactions)
    }

    /** Opens the file with whatever it holds. */
    constructor (contents: Db)
      ensures Value() == contents
    {
      hourKey := contents.hourKey;
      capacities := contents.capacities;
      reservations := contents.reservations;
      lastId := contents.lastId;
      transactions := contents.transactions;
    }

    /** The seed rows are inserted unless their key is already there. */
    method Init()
      modifies this`capacities
      ensures capacities == map[(1, 1) := 10, (1, 2) := 15] + old(capacities)
    {
      if (1, 1) !in capacities {
        capacities := capacities[(1, 1) := 10];
      }
      if (1, 2) !in capacities {
        capacities := capacities[(1, 2) := 15];
      }
    }

    method SelectCapacity(center: int, workshop: int) returns (row: Option<int>)
      ensures row == if (center, workshop) in capacities then Some(capacities[(center, workshop)]) else None
    {
      row := if (center, workshop) in capacities then Some(capacities[(center, workshop)]) else None;
    }

    method SelectLoad(req: Request) returns (load: int)
      ensures load == LoadFor(Value(), req)
    {
      load := LoadFor(Value(), req);
    }

    method InsertReservationRow(req: Request, now: int) returns (id: int)
      modifies this
      ensures Value() == InsertReservation(old(Value()), req, now) && id == old(lastId) + 1
    {
      id := lastId + 1;
      reservations := reservations + [
        Reservation(id, req.name, req.cnp, req.center, req.workshop, req.time, Rezervare, now)];
      lastId := id;
    }

    method Update(w: Where, to: Status) returns (changed: int)
      modifies this
      ensures Value() == UpdateStatus(old(Value()), w, to) && changed == Changes(old(Value()), w)
    {
      changed := Changes(Value(), w);
      reservations := SetStatus(reservations, w, to);
    }

    method SelectPayment(id: int) returns (row: Option<real>)
      ensures row == FirstPayment(transactions, id)
    {
      row := FirstPayment(transactions, id);
    }

    method InsertTransactionRow(t: Transaction)
      modifies this
      ensures Value() == InsertTransaction(old(Value()), t)
    {
      transactions := transactions + [t];
    }

    method SelectOccupancy() returns (rows: seq<Group>)
      ensures rows == GroupRows(Value(), reservations)
    {
      rows := GroupRows(Value(), reservations);
    }

    method SelectBalances() returns (rows: seq<Balance>)
      ensures rows == BalancesOf(reservations, transactions)
    {
      rows := BalancesOf(reservations, transactions);
    }
  }

  class Service {
    const db: Database

    constructor (db: Database)
      ensures this.db == db
    {
      this.db := db;
    }

    method ProceseazaRezervare(req: Request, now: int) returns (reply: Reply)
      modifies db
      ensures (db.Value(), reply) == Atomic(old(db.Value()), Reserve(req), now)
    {
      var hour := HourOf(req.time);
      if hour.None? {
        return BadFormat;
      }
      if hour.value < 9 || hour.value >= 17 {
        return Closed;
      }
      var maxCap := 10;
      var row := db.SelectCapacity(req.center, req.workshop);
      if row.Some? {
        maxCap := row.value;
      }
      var load := db.SelectLoad(req);
      if load < maxCap {
        var id := db.InsertReservationRow(req, now);
        reply := Reserved(id);
      } else {
        reply := Full(maxCap);
      }
    }

    method ProceseazaPlata(id: int, amount: real, now: int) returns (reply: Reply)
      modifies db
      ensures (db.Value(), reply) == Atomic(old(db.Value()), Pay(id, amount), now)
    {
      var changed := db.Update(ById(id, Rezervare), Platita);
      if changed > 0 {
        db.InsertTransactionRow(Transaction(id, Incasare, amount));
        return Paid;
      }
      return PayRefused;
    }

    method ProceseazaAnulare(id: int, now: int) returns (reply: Reply)
      modifies db
      ensures (db.Value(), reply) == Atomic(old(db.Value()), Cancel(id), now)
    {
      var payment := db.SelectPayment(id);
      if payment.None? {
        return NotPaid;
      }
      var amountPaid := payment.value;
      var changed := db.Update(ById(id, Platita), Anulata);
      if changed > 0 {
        db.InsertTransactionRow(Transaction(id, Ramburs, -amountPaid));
        return Refunded(amountPaid);
      }
      return CancelFailed;
    }

    /** The occupancy loop of the audit. It writes a line for each row and comes to its end unless
        a row has no hour, which it meets after the lines of the rows before. */
    method WriteOccupancy(rows: seq<Group>)
      returns (defined: bool, lines: seq<OccupancyLine>, activeReservations: bool)
      ensures |lines| <= |rows| && lines == LinesOf(rows[..|lines|])
      ensures defined <==> |lines| == |rows|
      ensures !defined ==> rows[|lines|].key.None?
      ensures defined <==> !HasNullHour(rows)
      ensures activeReservations <==> rows != []
    {
      defined, lines, activeReservations := true, [], false;
      var i := 0;
      while i < |rows|
        invariant 0 <= i <= |rows| && |lines| == i
        invariant lines == LinesOf(rows[..i])
        invariant !HasNullHour(rows[..i])
        invariant activeReservations <==> i > 0
      {
        activeReservations := true;
        if rows[i].key.None? {
          defined := false;
          return;
        }
        var occupied, cap := rows[i].occupied, rows[i].capacity;
        var verdict;
        if occupied > cap {
          verdict := Suprapunere;
        } else if occupied == cap {
          verdict := SalaPlina;
        } else {
          verdict := Liber;
        }
        lines := lines + [OccupancyLine(rows[i], verdict)];
        i := i + 1;
      }
      assert rows[..|rows|] == rows;
    }

    /** The balance loop of the audit. */
    method WriteBalances(rows: seq<Balance>) returns (lines: seq<Balance>, moneyFound: bool)
      ensures lines == rows
      ensures moneyFound <==> rows != []
    {
      lines, moneyFound := [], false;
      var i := 0;
      while i < |rows|
        invariant 0 <= i <= |rows|
        invariant lines == rows[..i]
        invariant moneyFound <==> i > 0
      {
        moneyFound := true;
        lines := lines + [rows[i]];
        i := i + 1;
      }
    }

    /** One round of the periodic check. */
    method RunPeriodicCheck(timeout: int, now: int) returns (reply: Reply)
      modifies db
      ensures (db.Value(), reply) == Atomic(old(db.Value()), Sweep(timeout), now)
    {
      var expired := db.Update(ExpiryWhere(timeout, now), Expirat);
      var groups := db.SelectOccupancy();
      var defined, occupancy, anyActive := WriteOccupancy(groups);
      if !defined {
        return Undefined;
      }
      assert groups[..|groups|] == groups;
      var totals := db.SelectBalances();
      var balances, anyMoney := WriteBalances(totals);
      reply := Audited(Report(expired, occupancy, anyActive, balances, anyMoney));
    }
  }
}
