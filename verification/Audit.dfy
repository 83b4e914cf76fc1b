/** The two audit queries of the periodic check and the lines written from their rows. */
module Audit {
  import opened Prelude
  import opened Tables

  // ---------------------------------------------------------------- grouped occupancy

  /** One row of the occupancy query; GROUP BY takes equal hours together, and NULLs too. */
  datatype Group = Group(center: int, workshop: int, key: Option<string>, occupied: nat, capacity: int)

  predicate SameSlot(g: Group, center: int, workshop: int, key: Option<string>) {
    g.center == center && g.workshop == workshop && g.key == key
  }

  /** Count one more row in its group, opening the group at its first row. */
  function Tally(groups: seq<Group>, center: int, workshop: int, key: Option<string>, capacity: int): seq<Group> {
    if groups == [] then [Group(center, workshop, key, 1, capacity)]
    else if SameSlot(groups[0], center, workshop, key) then
      [groups[0].(occupied := groups[0].occupied + 1)] + groups[1..]
    else [groups[0]] + Tally(groups[1..], center, workshop, key, capacity)
  }

  /** The grouped join, in one pass over the reservations. */
  function GroupRows(db: Db, rows: seq<Reservation>): seq<Group> {
    if rows == [] then []
    else
      var groups := GroupRows(db, rows[..|rows| - 1]);
      var r := rows[|rows| - 1];
      if Active(r.status) && (r.center, r.workshop) in db.capacities then
        Tally(groups, r.center, r.workshop, db.hourKey(r.time), db.capacities[(r.center, r.workshop)])
      else groups
  }

  /** The code makes a `std::string` of every hour; for a NULL the pointer is null. */
  predicate HasNullHour(groups: seq<Group>) {
    exists i :: 0 <= i < |groups| && groups[i].key.None?
  }

  datatype Verdict = Suprapunere | SalaPlina | Liber

  datatype OccupancyLine = OccupancyLine(group: Group, verdict: Verdict)

  function VerdictOf(occupied: int, capacity: int): Verdict {
    if occupied > capacity then Suprapunere
    else if occupied == capacity then SalaPlina
    else Liber
  }

  function LineOf(g: Group): OccupancyLine {
    OccupancyLine(g, VerdictOf(g.occupied, g.capacity))
  }

  function LinesOf(groups: seq<Group>): (lines: seq<OccupancyLine>)
    ensures |lines| == |groups|
    ensures forall i :: 0 <= i < |groups| ==> lines[i] == LineOf(groups[i])
  {
    seq(|groups|, i requires 0 <= i < |groups| => LineOf(groups[i]))
  }

  // ---------------------------------------------------------------- balances

  datatype Balance = Balance(center: int, total: real)

  /** The centre of the reservation a transaction joins with: `id` is the primary key. */
  function CenterOf(rows: seq<Reservation>, id: int): Option<int> {
    if rows == [] then None
    else if rows[|rows| - 1].id == id then Some(rows[|rows| - 1].center)
    else CenterOf(rows[..|rows| - 1], id)
  }

  function AddAmount(balances: seq<Balance>, center: int, amount: real): seq<Balance> {
    if balances == [] then [Balance(center, amount)]
    else if balances[0].center == center then
      [Balance(center, balances[0].total + amount)] + balances[1..]
    else [balances[0]] + AddAmount(balances[1..], center, amount)
  }

  /** `SUM(t.amount) ... GROUP BY r.center_id`, in one pass over the transactions. */
  function BalancesOf(rows: seq<Reservation>, txs: seq<Transaction>): seq<Balance> {
    if txs == [] then []
    else
      var balances := BalancesOf(rows, txs[..|txs| - 1]);
      var t := txs[|txs| - 1];
      match CenterOf(rows, t.reservationId)
      case None => balances
      case Some(center) => AddAmount(balances, center, t.amount)
  }

  // ---------------------------------------------------------------- the report

  /** One audit entry: how many rows expired, the occupancy lines and the balances; the two
      flags select the "nothing to show" lines. */
  datatype Report = Report(
    expired: nat,
    occupancy: seq<OccupancyLine>, anyActive: bool,
    balances: seq<Balance>, anyMoney: bool)

  function ReportOf(db: Db, expired: nat): Report {
    var lines := LinesOf(GroupRows(db, db.reservations));
    var balances := BalancesOf(db.reservations, db.transactions);
    Report(expired, lines, lines != [], balances, balances != [])
  }
}
