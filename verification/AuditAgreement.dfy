/** What the audit report means: its occupancy agrees with admission, its balances with the
    payments of the reservations that are still paid. */
module AuditAgreement {
  import opened Prelude
  import opened Folds
  import opened Tables
  import opened Audit
  import opened Requests
  import opened Ledger
  import opened Capacity

  // ---------------------------------------------------------------- occupancy

  /** The active rows of one centre, workshop and hour, where the hour may be NULL. */
  function InGroup(hourKey: string -> Option<string>, center: int, workshop: int, key: Option<string>):
    Reservation -> bool
  {
    (r: Reservation) =>
      r.center == center && r.workshop == workshop && hourKey(r.time) == key && Active(r.status)
  }

  ghost predicate DistinctSlots(groups: seq<Group>) {
    forall i, j :: 0 <= i < j < |groups| ==>
                     !SameSlot(groups[j], groups[i].center, groups[i].workshop, groups[i].key)
  }

  ghost predicate Listed(groups: seq<Group>, c: int, w: int, k: Option<string>) {
    exists i :: 0 <= i < |groups| && SameSlot(groups[i], c, w, k)
  }

  /** The groups are exactly the occupied slots that have a capacity row, once each, with the
      number the admission query would count. */
  ghost predicate Agrees(db: Db, rows: seq<Reservation>, groups: seq<Group>) {
    && DistinctSlots(groups)
    && (forall i :: 0 <= i < |groups| ==> GroupRight(db, rows, groups[i]))
    && (forall c, w, k :: (c, w) in db.capacities && Count(rows, InGroup(db.hourKey, c, w, k)) > 0 ==>
                            Listed(groups, c, w, k))
  }

  ghost predicate GroupRight(db: Db, rows: seq<Reservation>, g: Group) {
    && (g.center, g.workshop) in db.capacities && g.capacity == db.capacities[(g.center, g.workshop)]
    && g.occupied == Count(rows, InGroup(db.hourKey, g.center, g.workshop, g.key)) && g.occupied > 0
  }

  /** `Tally` raises the one matching group, or opens a new one at the end. */
  lemma {:induction false} TallyAt(groups: seq<Group>, c: int, w: int, k: Option<string>, cap: int) returns (i: nat)
    ensures i <= |groups|
    ensures forall j :: 0 <= j < i ==> !SameSlot(groups[j], c, w, k)
    ensures i < |groups| ==> SameSlot(groups[i], c, w, k)
    ensures Tally(groups, c, w, k, cap)
         == if i < |groups| then groups[i := groups[i].(occupied := groups[i].occupied + 1)]
            else groups + [Group(c, w, k, 1, cap)]
  {
    if groups == [] || SameSlot(groups[0], c, w, k) {
      i := 0;
    } else {
      i := TallyAt(groups[1..], c, w, k, cap);
      i := i + 1;
    }
  }

  /** Adding the row to its group keeps the agreement. */
  lemma TallyAgrees(db: Db, rows: seq<Reservation>, r: Reservation, groups: seq<Group>, k: Option<string>)
    requires Agrees(db, rows, groups)
    requires Active(r.status) && (r.center, r.workshop) in db.capacities && db.hourKey(r.time) == k
    ensures Agrees(db, rows + [r], Tally(groups, r.center, r.workshop, k, db.capacities[(r.center, r.workshop)]))
  {
    hide Tally, DistinctSlots, Listed, GroupRight;
    var cap := db.capacities[(r.center, r.workshop)];
    var i := TallyAt(groups, r.center, r.workshop, k, cap);
    var after := Tally(groups, r.center, r.workshop, k, cap);
    forall j | 0 <= j < |after| ensures GroupRight(db, rows + [r], after[j]) {
      TalliedGroup(db, rows, r, groups, k, i, j);
    }
    forall c, w, kk | (c, w) in db.capacities && Count(rows + [r], InGroup(db.hourKey, c, w, kk)) > 0
      ensures Listed(after, c, w, kk)
    {
      CountSnoc(rows, r, InGroup(db.hourKey, c, w, kk));
      TallyLists(groups, r.center, r.workshop, k, cap, c, w, kk);
    }
    TallyDistinct(groups, r.center, r.workshop, k, cap);
  }

  /** After a tally its own slot is listed, and so is every slot that was. */
  lemma TallyLists(groups: seq<Group>, c: int, w: int, k: Option<string>, cap: int, c': int, w': int, k': Option<string>)
    ensures Listed(groups, c', w', k') || (c == c' && w == w' && k == k') ==>
              Listed(Tally(groups, c, w, k, cap), c', w', k')
  {
    hide Tally;
    var i := TallyAt(groups, c, w, k, cap);
    var after := Tally(groups, c, w, k, cap);
    if c == c' && w == w' && k == k' {
      assert SameSlot(after[i], c', w', k');
    } else if Listed(groups, c', w', k') {
      var j :| 0 <= j < |groups| && SameSlot(groups[j], c', w', k');
      assert SameSlot(after[j], c', w', k');
    }
  }

  lemma TallyDistinct(groups: seq<Group>, c: int, w: int, k: Option<string>, cap: int)
    requires DistinctSlots(groups)
    ensures DistinctSlots(Tally(groups, c, w, k, cap))
  {
    hide Tally;
    var i := TallyAt(groups, c, w, k, cap);
  }

  /** Group `j` after the row has been tallied in group `i`. */
  lemma TalliedGroup(db: Db, rows: seq<Reservation>, r: Reservation, groups: seq<Group>, k: Option<string>, i: nat, j: nat)
    requires Agrees(db, rows, groups)
    requires Active(r.status) && (r.center, r.workshop) in db.capacities && db.hourKey(r.time) == k
    requires i <= |groups| && forall n :: 0 <= n < i ==> !SameSlot(groups[n], r.center, r.workshop, k)
    requires i < |groups| ==> SameSlot(groups[i], r.center, r.workshop, k)
    requires j < |groups| || (j == i == |groups|)
    ensures GroupRight(db, rows + [r],
                       if j == i then
                         if i < |groups| then groups[i].(occupied := groups[i].occupied + 1)
                         else Group(r.center, r.workshop, k, 1, db.capacities[(r.center, r.workshop)])
                       else groups[j])
  {
    if j < |groups| {
      assert GroupRight(db, rows, groups[j]);
      CountSnoc(rows, r, InGroup(db.hourKey, groups[j].center, groups[j].workshop, groups[j].key));
    } else {
      assert !Listed(groups, r.center, r.workshop, k);
      CountSnoc(rows, r, InGroup(db.hourKey, r.center, r.workshop, k));
    }
  }

  lemma SkipAgrees(db: Db, rows: seq<Reservation>, r: Reservation, groups: seq<Group>)
    requires Agrees(db, rows, groups)
    requires !(Active(r.status) && (r.center, r.workshop) in db.capacities)
    ensures Agrees(db, rows + [r], groups)
  {
    forall j | 0 <= j < |groups| ensures GroupRight(db, rows + [r], groups[j]) {
      CountSnoc(rows, r, InGroup(db.hourKey, groups[j].center, groups[j].workshop, groups[j].key));
      assert GroupRight(db, rows, groups[j]);
    }
    forall c, w, k | (c, w) in db.capacities && Count(rows + [r], InGroup(db.hourKey, c, w, k)) > 0
      ensures Listed(groups, c, w, k)
    {
      CountSnoc(rows, r, InGroup(db.hourKey, c, w, k));
    }
  }

  /** The one-pass grouping counts what admission counts. */
  lemma {:induction false} GroupingAgrees(db: Db, rows: seq<Reservation>)
    ensures Agrees(db, rows, GroupRows(db, rows))
  {
    if rows == [] {
    } else {
      var n := |rows| - 1;
      var r := rows[n];
      GroupingAgrees(db, rows[..n]);
      assert rows == rows[..n] + [r];
      if Active(r.status) && (r.center, r.workshop) in db.capacities {
        TallyAgrees(db, rows[..n], r, GroupRows(db, rows[..n]), db.hourKey(r.time));
      } else {
        SkipAgrees(db, rows[..n], r, GroupRows(db, rows[..n]));
      }
    }
  }

  /** An active row with a capacity row whose hour the engine cannot read. */
  predicate UnreadableRow(db: Db, r: Reservation) {
    Active(r.status) && (r.center, r.workshop) in db.capacities && db.hourKey(r.time).None?
  }

  /** The audit queries meet a NULL hour exactly when such a row is left after the expiry. */
  lemma AuditDefinedAfter(db: Db, timeout: int, now: int)
    ensures var (after, reply) := DoSweep(db, timeout, now);
            && (reply.Audited? || reply.Undefined?)
            && (reply.Audited? <==>
                  forall i :: 0 <= i < |after.reservations| ==> !UnreadableRow(after, after.reservations[i]))
  {
    hide GroupRows, ReportOf;
    var (after, reply) := DoSweep(db, timeout, now);
    var rows, groups := after.reservations, GroupRows(after, after.reservations);
    GroupingAgrees(after, rows);
    forall i | 0 <= i < |rows| && UnreadableRow(after, rows[i]) ensures HasNullHour(groups) {
      CountZero(rows, InGroup(after.hourKey, rows[i].center, rows[i].workshop, None));
      assert Listed(groups, rows[i].center, rows[i].workshop, None);
    }
    if HasNullHour(groups) {
      var j :| 0 <= j < |groups| && groups[j].key.None?;
      assert GroupRight(after, rows, groups[j]);
      CountZero(rows, InGroup(after.hourKey, groups[j].center, groups[j].workshop, None));
    }
  }

  /** A round of the check comes to its end exactly when there is no active reservation with a
      capacity row and an unreadable hour, except those that this round expires. */
  lemma AuditDefinedExactly(db: Db, timeout: int, now: int)
    ensures var reply := DoSweep(db, timeout, now).1;
            && (reply.Audited? || reply.Undefined?)
            && (reply.Audited? <==>
                  forall i :: 0 <= i < |db.reservations| && UnreadableRow(db, db.reservations[i]) ==>
                                Matches(ExpiryWhere(timeout, now), db.reservations[i]))
  {
    hide AuditReply;
    AuditDefinedAfter(db, timeout, now);
    var after := DoSweep(db, timeout, now).0;
    forall i | 0 <= i < |db.reservations|
      ensures UnreadableRow(after, after.reservations[i])
         <==> UnreadableRow(db, db.reservations[i]) && !Matches(ExpiryWhere(timeout, now), db.reservations[i])
    {
    }
  }

  /** Where capacity is respected, the audit never reports an overlap, and it reports a slot full
      exactly when the next request for it would be refused. */
  lemma NoOverlapReported(db: Db, expired: nat, i: nat)
    requires WithinCapacity(db) && AuditReply(db, expired).Audited?
    requires i < |AuditReply(db, expired).report.occupancy|
    ensures var line := AuditReply(db, expired).report.occupancy[i];
            && line.group.key.Some? && line.verdict != Suprapunere
            && (line.verdict == SalaPlina <==>
                  !(SlotLoad(db, line.group.center, line.group.workshop, line.group.key.value)
                    < CapacityOf(db, line.group.center, line.group.workshop)))
  {
    GroupingAgrees(db, db.reservations);
    var g := GroupRows(db, db.reservations)[i];
    assert GroupRight(db, db.reservations, g);
    CountSame(db.reservations, db.reservations,
              InGroup(db.hourKey, g.center, g.workshop, g.key), InSlot(db.hourKey, g.center, g.workshop, g.key.value));
    assert SlotLoad(db, g.center, g.workshop, g.key.value) <= NonNegative(CapacityOf(db, g.center, g.workshop));
  }

  function IsExpired(): Reservation -> bool {
    (r: Reservation) => r.status == Expirat
  }

  lemma {:induction false} ExpiryCount(rows: seq<Reservation>, w: Where)
    requires !w.ById?
    ensures Count(SetStatus(rows, w, Expirat), IsExpired())
         == Count(rows, IsExpired()) + Count(rows, (r: Reservation) => Matches(w, r))
  {
    if rows != [] {
      var n := |rows| - 1;
      ExpiryCount(rows[..n], w);
      assert SetStatus(rows, w, Expirat)[..n] == SetStatus(rows[..n], w, Expirat);
    }
  }

  /** The number of expirations in the report is the number of rows the sweep expired. */
  lemma SweepReportsExpired(db: Db, timeout: int, now: int)
    ensures var (after, reply) := DoSweep(db, timeout, now);
            reply.Audited? ==>
              Count(after.reservations, IsExpired())
              == Count(db.reservations, IsExpired()) + reply.report.expired
  {
    ExpiryCount(db.reservations, ExpiryWhere(timeout, now));
  }

  // ---------------------------------------------------------------- balances: the grouped sum

  /** What one transaction contributes to a centre. */
  function AmountAt(rows: seq<Reservation>, center: int): Transaction -> real {
    (t: Transaction) => if CenterOf(rows, t.reservationId) == Some(center) then t.amount else 0.0
  }

  function TotalOf(): Balance -> real {
    (b: Balance) => b.total
  }

  function Amount(): Transaction -> real {
    (t: Transaction) => t.amount
  }

  ghost predicate DistinctCenters(balances: seq<Balance>) {
    forall i, j :: 0 <= i < j < |balances| ==> balances[i].center != balances[j].center
  }

  ghost predicate TotalRight(rows: seq<Reservation>, txs: seq<Transaction>, b: Balance) {
    b.total == Sum(txs, AmountAt(rows, b.center))
  }

  ghost predicate BalanceRight(rows: seq<Reservation>, txs: seq<Transaction>, balances: seq<Balance>) {
    && DistinctCenters(balances)
    && (forall i :: 0 <= i < |balances| ==> TotalRight(rows, txs, balances[i]))
    && (forall j :: 0 <= j < |txs| && CenterOf(rows, txs[j].reservationId).Some? ==>
                      HasCenter(balances, CenterOf(rows, txs[j].reservationId).value))
  }

  ghost predicate HasCenter(balances: seq<Balance>, c: int) {
    exists i :: 0 <= i < |balances| && balances[i].center == c
  }

  lemma {:induction false} AddAmountAt(balances: seq<Balance>, c: int, amount: real) returns (i: nat)
    ensures i <= |balances|
    ensures forall j :: 0 <= j < i ==> balances[j].center != c
    ensures i < |balances| ==> balances[i].center == c
    ensures AddAmount(balances, c, amount)
         == if i < |balances| then balances[i := Balance(c, balances[i].total + amount)]
            else balances + [Balance(c, amount)]
  {
    if balances == [] || balances[0].center == c {
      i := 0;
    } else {
      i := AddAmountAt(balances[1..], c, amount);
      i := i + 1;
    }
  }

  lemma {:induction false} NothingForCenter(rows: seq<Reservation>, txs: seq<Transaction>, c: int)
    requires forall j :: 0 <= j < |txs| ==> CenterOf(rows, txs[j].reservationId) != Some(c)
    ensures Sum(txs, AmountAt(rows, c)) == 0.0
  {
    if txs != [] {
      NothingForCenter(rows, txs[..|txs| - 1], c);
    }
  }

  lemma AddAmountTotals(rows: seq<Reservation>, txs: seq<Transaction>, t: Transaction, balances: seq<Balance>, c: int)
    requires BalanceRight(rows, txs, balances) && CenterOf(rows, t.reservationId) == Some(c)
    ensures DistinctCenters(AddAmount(balances, c, t.amount))
    ensures forall i :: 0 <= i < |AddAmount(balances, c, t.amount)| ==>
                          TotalRight(rows, txs + [t], AddAmount(balances, c, t.amount)[i])
  {
    hide AddAmount;
    var i := AddAmountAt(balances, c, t.amount);
    var after := AddAmount(balances, c, t.amount);
    forall j | 0 <= j < |after| ensures TotalRight(rows, txs + [t], after[j]) {
      SumSnoc(txs, t, AmountAt(rows, after[j].center));
      if j < |balances| {
        assert TotalRight(rows, txs, balances[j]);
      } else {
        assert !HasCenter(balances, c);
        NothingForCenter(rows, txs, c);
      }
    }
  }

  lemma AddAmountLists(balances: seq<Balance>, c: int, amount: real, d: int)
    requires d == c || HasCenter(balances, d)
    ensures HasCenter(AddAmount(balances, c, amount), d)
  {
    var i := AddAmountAt(balances, c, amount);
    var after := AddAmount(balances, c, amount);
    if d == c {
      assert after[i].center == c;
    } else {
      var k :| 0 <= k < |balances| && balances[k].center == d;
      assert after[k].center == d;
    }
  }

  /** Each centre is listed once, with the sum of its transactions. */
  lemma {:induction false} BalancesRight(rows: seq<Reservation>, txs: seq<Transaction>)
    ensures BalanceRight(rows, txs, BalancesOf(rows, txs))
  {
    if txs == [] {
    } else {
      var n := |txs| - 1;
      var t := txs[n];
      BalancesRight(rows, txs[..n]);
      assert txs == txs[..n] + [t];
      var balances := BalancesOf(rows, txs[..n]);
      match CenterOf(rows, t.reservationId)
      case Some(c) =>
        AddAmountTotals(rows, txs[..n], t, balances, c);
        forall j | 0 <= j < |txs| && CenterOf(rows, txs[j].reservationId).Some?
          ensures HasCenter(AddAmount(balances, c, t.amount), CenterOf(rows, txs[j].reservationId).value)
        {
          if j < n {
            assert txs[..n][j] == txs[j];
          }
          AddAmountLists(balances, c, t.amount, CenterOf(rows, txs[j].reservationId).value);
        }
      case None =>
        forall j | 0 <= j < |balances|
          ensures TotalRight(rows, txs, balances[j])
        {
          assert TotalRight(rows, txs[..n], balances[j]);
          SumSnoc(txs[..n], t, AmountAt(rows, balances[j].center));
        }
    }
  }

  lemma {:induction false} AddedTotal(balances: seq<Balance>, i: nat, b: Balance)
    requires i < |balances|
    ensures Sum(balances[i := b], TotalOf()) == Sum(balances, TotalOf()) - balances[i].total + b.total
  {
    var n := |balances| - 1;
    if i == n {
      assert balances[i := b][..n] == balances[..n];
    } else {
      assert balances[i := b][..n] == balances[..n][i := b];
      AddedTotal(balances[..n], i, b);
    }
  }

  lemma AddAmountTotal(balances: seq<Balance>, c: int, amount: real)
    ensures Sum(AddAmount(balances, c, amount), TotalOf()) == Sum(balances, TotalOf()) + amount
  {
    hide AddAmount;
    var i := AddAmountAt(balances, c, amount);
    if i < |balances| {
      AddedTotal(balances, i, Balance(c, balances[i].total + amount));
    } else {
      SumSnoc(balances, Balance(c, amount), TotalOf());
    }
  }

  /** The centre totals add up to the sum of all transactions. */
  lemma {:induction false} TotalsAddUp(rows: seq<Reservation>, txs: seq<Transaction>)
    requires forall j :: 0 <= j < |txs| ==> CenterOf(rows, txs[j].reservationId).Some?
    ensures Sum(BalancesOf(rows, txs), TotalOf()) == Sum(txs, Amount())
  {
    if txs != [] {
      var n := |txs| - 1;
      var t := txs[n];
      TotalsAddUp(rows, txs[..n]);
      AddAmountTotal(BalancesOf(rows, txs[..n]), CenterOf(rows, t.reservationId).value, t.amount);
    }
  }

  // ---------------------------------------------------------------- balances: conservation

  /** Everything recorded for one reservation. */
  function AmountOf(id: int): Transaction -> real {
    (t: Transaction) => if t.reservationId == id then t.amount else 0.0
  }

  function AmountOfKind(id: int, kind: Kind): Transaction -> real {
    (t: Transaction) => if t.reservationId == id && t.kind == kind then t.amount else 0.0
  }

  /** What one reservation leaves with a centre. */
  function NetAt(txs: seq<Transaction>, center: int): Reservation -> real {
    (r: Reservation) => if r.center == center then Sum(txs, AmountOf(r.id)) else 0.0
  }

  /** The payment of a row that is currently PLATITA in this centre. */
  function HeldAt(txs: seq<Transaction>, center: int): Reservation -> real {
    (r: Reservation) =>
      if r.center == center && r.status == Platita && FirstPayment(txs, r.id).Some?
      then FirstPayment(txs, r.id).value else 0.0
  }

  ghost predicate DistinctIds(rows: seq<Reservation>) {
    forall i, j :: 0 <= i < j < |rows| ==> rows[i].id != rows[j].id
  }

  lemma {:induction false} CenterFound(rows: seq<Reservation>, k: nat)
    requires DistinctIds(rows) && k < |rows|
    ensures CenterOf(rows, rows[k].id) == Some(rows[k].center)
  {
    if k < |rows| - 1 {
      CenterFound(rows[..|rows| - 1], k);
    }
  }

  lemma {:induction false} CenterMissing(rows: seq<Reservation>, id: int)
    ensures CenterOf(rows, id).Some? <==> HasRow(rows, id)
  {
    if rows != [] {
      var n := |rows| - 1;
      CenterMissing(rows[..n], id);
      if HasRow(rows[..n], id) {
        var i :| 0 <= i < n && rows[..n][i].id == id;
        assert rows[i].id == id;
      }
      if HasRow(rows, id) && rows[n].id != id {
        var i :| 0 <= i < |rows| && rows[i].id == id;
        assert rows[..n][i].id == id;
      }
    }
  }

  /** Summing by transaction and summing by reservation give the same total for a centre. */
  lemma {:induction false} SumsExchange(rows: seq<Reservation>, txs: seq<Transaction>, c: int)
    requires DistinctIds(rows)
    ensures Sum(txs, AmountAt(rows, c)) == Sum(rows, NetAt(txs, c))
  {
    if txs == [] {
      SumOfZeros(rows, NetAt(txs, c));
    } else {
      var n := |txs| - 1;
      var t := txs[n];
      SumsExchange(rows, txs[..n], c);
      CenterMissing(rows, t.reservationId);
      if HasRow(rows, t.reservationId) {
        var k :| 0 <= k < |rows| && rows[k].id == t.reservationId;
        CenterFound(rows, k);
        SumShift(rows, k, NetAt(txs[..n], c), NetAt(txs, c), if rows[k].center == c then t.amount else 0.0);
      } else {
        SumSame(rows, rows, NetAt(txs[..n], c), NetAt(txs, c));
      }
    }
  }

  lemma {:induction false} SumByKind(txs: seq<Transaction>, id: int)
    ensures Sum(txs, AmountOf(id)) == Sum(txs, AmountOfKind(id, Incasare)) + Sum(txs, AmountOfKind(id, Ramburs))
  {
    if txs != [] {
      SumByKind(txs[..|txs| - 1], id);
    }
  }

  /** At most one transaction of a kind, all with amount `a`: the kind sums to `a` or to nothing. */
  lemma {:induction false} SumOfOneKind(txs: seq<Transaction>, id: int, kind: Kind, a: real)
    requires Count(txs, OfKind(id, kind)) <= 1
    requires forall j :: 0 <= j < |txs| && OfKind(id, kind)(txs[j]) ==> txs[j].amount == a
    ensures Sum(txs, AmountOfKind(id, kind)) == if Count(txs, OfKind(id, kind)) == 1 then a else 0.0
  {
    if txs != [] {
      SumOfOneKind(txs[..|txs| - 1], id, kind, a);
    }
  }

  /** A single payment is the one the cancellation query finds. */
  lemma {:induction false} SinglePayment(txs: seq<Transaction>, id: int)
    requires Count(txs, OfKind(id, Incasare)) <= 1
    ensures forall j :: 0 <= j < |txs| && OfKind(id, Incasare)(txs[j]) ==>
                          FirstPayment(txs, id) == Some(txs[j].amount)
  {
    if txs != [] {
      var n := |txs| - 1;
      SinglePayment(txs[..n], id);
      PaymentFound(txs[..n], id);
      CountZero(txs[..n], OfKind(id, Incasare));
      forall j | 0 <= j < |txs| && OfKind(id, Incasare)(txs[j])
        ensures FirstPayment(txs, id) == Some(txs[j].amount)
      {
        if j < n {
          assert OfKind(id, Incasare)(txs[..n][j]);
        }
      }
    }
  }

  /** A balanced row nets its payment while PLATITA and nothing otherwise. */
  lemma RowNets(db: Db, i: nat, c: int)
    requires Balanced(db) && i < |db.reservations|
    ensures NetAt(db.transactions, c)(db.reservations[i]) == HeldAt(db.transactions, c)(db.reservations[i])
  {
    var r, txs := db.reservations[i], db.transactions;
    assert RowBalanced(txs, r);
    var paid := if FirstPayment(txs, r.id).Some? then FirstPayment(txs, r.id).value else 0.0;
    PaymentFound(txs, r.id);
    SinglePayment(txs, r.id);
    SumByKind(txs, r.id);
    SumOfOneKind(txs, r.id, Incasare, paid);
    SumOfOneKind(txs, r.id, Ramburs, -paid);
  }

  /** The audit's balance of a centre is the sum of the amounts paid for its reservations that are
      currently PLATITA; a centre that is not listed holds nothing. */
  lemma BalanceConserved(db: Db)
    requires Sound(db)
    ensures forall i :: 0 <= i < |BalancesOf(db.reservations, db.transactions)| ==>
                          var b := BalancesOf(db.reservations, db.transactions)[i];
                          b.total == Sum(db.reservations, HeldAt(db.transactions, b.center))
    ensures forall c :: !HasCenter(BalancesOf(db.reservations, db.transactions), c) ==>
                          Sum(db.reservations, HeldAt(db.transactions, c)) == 0.0
    ensures Sum(BalancesOf(db.reservations, db.transactions), TotalOf()) == Sum(db.transactions, Amount())
  {
    var rows, txs := db.reservations, db.transactions;
    BalancesRight(rows, txs);
    forall c ensures Sum(txs, AmountAt(rows, c)) == Sum(rows, HeldAt(txs, c)) {
      SumsExchange(rows, txs, c);
      forall i | 0 <= i < |rows| ensures NetAt(txs, c)(rows[i]) == HeldAt(txs, c)(rows[i]) {
        RowNets(db, i, c);
      }
      SumSame(rows, rows, NetAt(txs, c), HeldAt(txs, c));
    }
    forall i | 0 <= i < |BalancesOf(rows, txs)|
      ensures BalancesOf(rows, txs)[i].total == Sum(rows, HeldAt(txs, BalancesOf(rows, txs)[i].center))
    {
      assert TotalRight(rows, txs, BalancesOf(rows, txs)[i]);
    }
    forall c | !HasCenter(BalancesOf(rows, txs), c) ensures Sum(rows, HeldAt(txs, c)) == 0.0 {
      NothingForCenter(rows, txs, c);
    }
    forall j | 0 <= j < |txs| ensures CenterOf(rows, txs[j].reservationId).Some? {
      CenterMissing(rows, txs[j].reservationId);
    }
    TotalsAddUp(rows, txs);
  }

  // ---------------------------------------------------------------- the whole report

  /** A row that the occupancy query takes into account. */
  predicate Shown(db: Db, r: Reservation) {
    Active(r.status) && (r.center, r.workshop) in db.capacities
  }

  /** A line names a slot with its load, its capacity and the verdict that follows from the two. */
  ghost predicate LineRight(db: Db, line: OccupancyLine) {
    var g := line.group;
    && g.key.Some? && (g.center, g.workshop) in db.capacities
    && g.occupied == SlotLoad(db, g.center, g.workshop, g.key.value) && g.occupied > 0
    && g.capacity == db.capacities[(g.center, g.workshop)]
    && (line.verdict == Suprapunere <==> g.occupied > g.capacity)
    && (line.verdict == SalaPlina <==> g.occupied == g.capacity)
    && (line.verdict == Liber <==> g.occupied < g.capacity)
  }

  ghost predicate ShowsSlot(lines: seq<OccupancyLine>, c: int, w: int, k: string, load: nat, capacity: int) {
    exists i :: 0 <= i < |lines| && lines[i].group == Group(c, w, Some(k), load, capacity)
  }

  /** The occupancy part: every occupied slot with a capacity row has one right line, no other line
      is there, and "nothing active" is written exactly when no such reservation is active. */
  ghost predicate OccupancyRight(db: Db, report: Report) {
    && (forall i :: 0 <= i < |report.occupancy| ==> LineRight(db, report.occupancy[i]))
    && (forall i, j :: 0 <= i < j < |report.occupancy| ==>
          var g, h := report.occupancy[i].group, report.occupancy[j].group;
          (g.center, g.workshop, g.key) != (h.center, h.workshop, h.key))
    && (forall c, w, k :: (c, w) in db.capacities && SlotLoad(db, c, w, k) > 0 ==>
          ShowsSlot(report.occupancy, c, w, k, SlotLoad(db, c, w, k), db.capacities[(c, w)]))
    && (report.anyActive <==> exists i :: 0 <= i < |db.reservations| && Shown(db, db.reservations[i]))
  }

  /** A transaction that joins a reservation of this centre. */
  ghost predicate Joins(rows: seq<Reservation>, txs: seq<Transaction>, c: int) {
    exists j :: 0 <= j < |txs| && CenterOf(rows, txs[j].reservationId) == Some(c)
  }

  /** The money part: the centres with joined transactions, once each, with their totals, and
      "nothing paid" exactly when there is none. */
  ghost predicate MoneyRight(db: Db, report: Report) {
    && BalanceRight(db.reservations, db.transactions, report.balances)
    && (forall c :: HasCenter(report.balances, c) <==> Joins(db.reservations, db.transactions, c))
    && (report.anyMoney <==> exists c :: Joins(db.reservations, db.transactions, c))
  }

  lemma SlotOfGroup(db: Db, c: int, w: int, k: string)
    ensures Count(db.reservations, InGroup(db.hourKey, c, w, Some(k))) == SlotLoad(db, c, w, k)
  {
    CountSame(db.reservations, db.reservations, InGroup(db.hourKey, c, w, Some(k)), InSlot(db.hourKey, c, w, k));
  }

  lemma LinesAreRight(db: Db, expired: nat, i: nat)
    requires AuditReply(db, expired).Audited? && i < |AuditReply(db, expired).report.occupancy|
    ensures LineRight(db, AuditReply(db, expired).report.occupancy[i])
  {
    hide GroupRows, BalancesOf, SlotLoad;
    GroupingAgrees(db, db.reservations);
    var g := GroupRows(db, db.reservations)[i];
    assert GroupRight(db, db.reservations, g);
    SlotOfGroup(db, g.center, g.workshop, g.key.value);
  }

  lemma SlotsAreShown(db: Db, expired: nat, c: int, w: int, k: string)
    requires AuditReply(db, expired).Audited? && (c, w) in db.capacities && SlotLoad(db, c, w, k) > 0
    ensures ShowsSlot(AuditReply(db, expired).report.occupancy, c, w, k, SlotLoad(db, c, w, k), db.capacities[(c, w)])
  {
    hide GroupRows, BalancesOf, SlotLoad;
    GroupingAgrees(db, db.reservations);
    SlotOfGroup(db, c, w, k);
    var groups := GroupRows(db, db.reservations);
    assert Listed(groups, c, w, Some(k));
    var i :| 0 <= i < |groups| && SameSlot(groups[i], c, w, Some(k));
    assert GroupRight(db, db.reservations, groups[i]);
    assert AuditReply(db, expired).report.occupancy[i].group == groups[i];
  }

  lemma AnyActiveRight(db: Db, expired: nat)
    requires AuditReply(db, expired).Audited?
    ensures AuditReply(db, expired).report.anyActive
       <==> exists i :: 0 <= i < |db.reservations| && Shown(db, db.reservations[i])
  {
    hide GroupRows, BalancesOf;
    var rows, groups := db.reservations, GroupRows(db, db.reservations);
    GroupingAgrees(db, rows);
    if groups != [] {
      assert GroupRight(db, rows, groups[0]);
      var p := InGroup(db.hourKey, groups[0].center, groups[0].workshop, groups[0].key);
      CountZero(rows, p);
      var i :| 0 <= i < |rows| && p(rows[i]);
      assert Shown(db, rows[i]);
    }
    if i :| 0 <= i < |rows| && Shown(db, rows[i]) {
      var r := rows[i];
      CountZero(rows, InGroup(db.hourKey, r.center, r.workshop, db.hourKey(r.time)));
      assert Listed(groups, r.center, r.workshop, db.hourKey(r.time));
    }
  }

  /** A centre is listed only for a transaction that joins it. */
  lemma {:induction false} ListedJoins(rows: seq<Reservation>, txs: seq<Transaction>, c: int)
    requires HasCenter(BalancesOf(rows, txs), c)
    ensures Joins(rows, txs, c)
  {
    var n := |txs| - 1;
    var before, here := BalancesOf(rows, txs[..n]), CenterOf(rows, txs[n].reservationId);
    if here == Some(c) {
      assert CenterOf(rows, txs[n].reservationId) == Some(c);
    } else {
      if here.Some? {
        StillListed(before, here.value, txs[n].amount, c);
      }
      ListedJoins(rows, txs[..n], c);
      var j :| 0 <= j < n && CenterOf(rows, txs[..n][j].reservationId) == Some(c);
      assert CenterOf(rows, txs[j].reservationId) == Some(c);
    }
  }

  lemma StillListed(balances: seq<Balance>, c: int, amount: real, d: int)
    requires d != c && HasCenter(AddAmount(balances, c, amount), d)
    ensures HasCenter(balances, d)
  {
    var i := AddAmountAt(balances, c, amount);
    var after := AddAmount(balances, c, amount);
    var k :| 0 <= k < |after| && after[k].center == d;
    assert balances[k].center == d;
  }

  lemma MoneyIsRight(db: Db, expired: nat)
    requires AuditReply(db, expired).Audited?
    ensures MoneyRight(db, AuditReply(db, expired).report)
  {
    hide GroupRows, BalancesOf, HasNullHour, LinesOf;
    var rows, txs := db.reservations, db.transactions;
    var balances := BalancesOf(rows, txs);
    BalancesRight(rows, txs);
    forall c ensures HasCenter(balances, c) <==> Joins(rows, txs, c) {
      if HasCenter(balances, c) {
        ListedJoins(rows, txs, c);
      }
    }
    if balances != [] {
      assert HasCenter(balances, balances[0].center);
    }
    if c :| Joins(rows, txs, c) {
      assert HasCenter(balances, c);
    }
  }

  /** What a completed round reports of the tables it leaves: each occupied slot once with its
      numbers and verdict, each centre with money once with its total, and nothing else. */
  lemma ReportRight(db: Db, timeout: int, now: int)
    requires DoSweep(db, timeout, now).1.Audited?
    ensures OccupancyRight(DoSweep(db, timeout, now).0, DoSweep(db, timeout, now).1.report)
    ensures MoneyRight(DoSweep(db, timeout, now).0, DoSweep(db, timeout, now).1.report)
  {
    hide LineRight, ShowsSlot, Shown, MoneyRight, SlotLoad, Expire, Changes;
    var (after, reply) := DoSweep(db, timeout, now);
    var expired := Changes(db, ExpiryWhere(timeout, now));
    assert reply == AuditReply(after, expired);
    hide DoSweep;
    MoneyIsRight(after, expired);
    AnyActiveRight(after, expired);
    LinesDiffer(after, expired);
    forall i | 0 <= i < |reply.report.occupancy| ensures LineRight(after, reply.report.occupancy[i]) {
      LinesAreRight(after, expired, i);
    }
    forall c, w, k | (c, w) in after.capacities && SlotLoad(after, c, w, k) > 0
      ensures ShowsSlot(reply.report.occupancy, c, w, k, SlotLoad(after, c, w, k), after.capacities[(c, w)])
    {
      SlotsAreShown(after, expired, c, w, k);
    }
  }

  lemma LinesDiffer(db: Db, expired: nat)
    requires AuditReply(db, expired).Audited?
    ensures forall i, j :: 0 <= i < j < |AuditReply(db, expired).report.occupancy| ==>
                             var g := AuditReply(db, expired).report.occupancy[i].group;
                             var h := AuditReply(db, expired).report.occupancy[j].group;
                             (g.center, g.workshop, g.key) != (h.center, h.workshop, h.key)
  {
    hide GroupRows, BalancesOf;
    GroupingAgrees(db, db.reservations);
  }
}
