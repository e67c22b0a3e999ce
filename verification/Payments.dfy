/** Payments for several tickets, confirmed in any order: what depends on the order and what does not. */
module Payments {
  import opened Basics
  import opened Tables
  import opened Transactions
  import opened Runs
  import opened Validity
  import opened Greedy
  import opened Settlement

  /** One webhook call or browser callback. */
  datatype Delivery = Delivery(reference: string, outcome: Option<Verification>)

  function Arriving(ds: seq<Delivery>): (r: seq<Step>)
    ensures |r| == |ds|
    ensures forall i :: 0 <= i < |ds| ==> r[i] == Step.Deliver(ds[i].reference, ds[i].outcome)
  {
    seq(|ds|, i requires 0 <= i < |ds| => Step.Deliver(ds[i].reference, ds[i].outcome))
  }

  /** The delivery confirms the payment of this ticket. */
  predicate Hits(d: Delivery, row: Ticket) {
    d.reference == row.reference && Settles(d.outcome, row.amount)
  }

  predicate Confirmed(ds: seq<Delivery>, row: Ticket) {
    exists i :: 0 <= i < |ds| && Hits(ds[i], row)
  }

  /** A confirmation reaches it: paid already or now, but not voided. */
  predicate Payable(row: Ticket) {
    row.status == Pending || Busy(row) || row.status == Filled
  }

  // ---- one row ----

  predicate WorkingPump(pumps: seq<Pump>, p: Option<nat>) {
    p.Some? && p.value < |pumps| && pumps[p.value].status == Working
  }

  predicate AnyWorks(pumps: seq<Pump>) {
    exists p :: 0 <= p < |pumps| && pumps[p].status == Working
  }

  /** What becomes of a row that was confirmed or not: which pump, and when, is all that is left open. */
  predicate Becomes(row: Ticket, after: Ticket, confirmed: bool, pumps: seq<Pump>) {
    && after == row.(status := after.status, paidAt := after.paidAt, pump := after.pump)
    && after.status == (if confirmed && row.status == Pending then Paid else row.status)
    && (if confirmed && row.status == Pending then after.paidAt.Some? else after.paidAt == row.paidAt)
    && (if confirmed && Payable(row) && row.pump.None? && AnyWorks(pumps) then WorkingPump(pumps, after.pump)
        else after.pump == row.pump)
  }

  lemma BecomesTwice(a: Ticket, b: Ticket, c: Ticket, first: bool, second: bool, pumps: seq<Pump>)
    requires Becomes(a, b, first, pumps) && Becomes(b, c, second, pumps)
    ensures Becomes(a, c, first || second, pumps)
  {
  }

  lemma LastHit(ds: seq<Delivery>, row: Ticket)
    requires ds != []
    ensures Confirmed(ds, row) <==> Confirmed(ds[..|ds| - 1], row) || Hits(ds[|ds| - 1], row)
  {
    var n := |ds| - 1;
    if Confirmed(ds[..n], row) {
      var i :| 0 <= i < n && Hits(ds[..n][i], row);
      assert Hits(ds[i], row);
    }
    if Confirmed(ds, row) {
      var i :| 0 <= i < |ds| && Hits(ds[i], row);
      assert i < n ==> Hits(ds[..n][i], row);
    }
  }

  /** The row a confirmation leaves. */
  function ConfirmedRow(db: Db, t: nat): Ticket
    requires t < |db.tickets|
  {
    var row, pumps := db.tickets[t], EnsureDefault(db.pumps);
    var paid := if row.status == Pending then row.(status := Paid, paidAt := Some(db.clock)) else row;
    if row.pump.Some? then paid else paid.(pump := LeastBusy(db.tickets, pumps, |pumps|))
  }

  lemma {:induction false} DeliverRow(db: Db, t: nat, d: Delivery)
    requires Valid(db) && t < |db.tickets| && Hits(d, db.tickets[t]) && Payable(db.tickets[t])
    ensures Transactions.Deliver(db, d.reference, d.outcome)
         == db.(pumps := EnsureDefault(db.pumps), tickets := db.tickets[t := ConfirmedRow(db, t)])
  {
    FindReferenceFirst(db.tickets, t);
    hide Valid, LeastBusy, AssignLeastBusy;
    var row, pumps := db.tickets[t], EnsureDefault(db.pumps);
    if row.status == Pending {
      ConfirmedPending(db, t);
    } else {
      AssignmentRow(db, t);
    }
  }

  lemma {:induction false} ConfirmedPending(db: Db, t: nat)
    requires Valid(db) && t < |db.tickets| && db.tickets[t].status == Pending
    ensures var paid := db.tickets[t := db.tickets[t].(status := Paid, paidAt := Some(db.clock))];
      AssignLeastBusy(db.(tickets := paid), t).0
        == db.(pumps := EnsureDefault(db.pumps), tickets := db.tickets[t := ConfirmedRow(db, t)])
  {
    hide LeastBusy, AssignLeastBusy;
    var row, pumps := db.tickets[t], EnsureDefault(db.pumps);
    assert RowOk(row, |db.shifts|, |db.pumps|, db.clock);
    var paid := row.(status := Paid, paidAt := Some(db.clock));
    IdleRow(db.tickets, t, paid);
    SameLoadsSameChoice(db.tickets, db.tickets[t := paid], pumps, |pumps|);
    AssignmentRow(db.(tickets := db.tickets[t := paid]), t);
  }

  /** A delivery that confirms no payable ticket does nothing. */
  lemma DeliverMisses(db: Db, d: Delivery)
    requires Valid(db) && forall t :: 0 <= t < |db.tickets| ==> !(Hits(d, db.tickets[t]) && Payable(db.tickets[t]))
    ensures Transactions.Deliver(db, d.reference, d.outcome) == db
  {
    var t := FindReference(db.tickets, d.reference);
    if t < |db.tickets| && Settles(d.outcome, db.tickets[t].amount) {
      assert Hits(d, db.tickets[t]);
    }
  }

  lemma ChoiceWorks(ts: seq<Ticket>, pumps: seq<Pump>)
    ensures var p := LeastBusy(ts, pumps, |pumps|); if AnyWorks(pumps) then WorkingPump(pumps, p) else p == None
  {
    LeastBusyFirst(ts, pumps, |pumps|);
  }

  // ---- the loads ----

  /** The loads of the working ones among the first n pumps. */
  function Loads(ts: seq<Ticket>, pumps: seq<Pump>, n: nat): (r: seq<nat>)
    requires n <= |pumps|
    ensures |r| == WorkingCount(pumps, n)
  {
    if n == 0 then []
    else Loads(ts, pumps, n - 1) + (if pumps[n - 1].status == Working then [Load(ts, n - 1)] else [])
  }

  /** Position of the first least number. */
  function Least(loads: seq<nat>): (i: nat)
    requires loads != []
    ensures i < |loads| && forall j :: 0 <= j < |loads| ==> loads[i] <= loads[j]
  {
    var n := |loads| - 1;
    if n == 0 then 0
    else
      var i := Least(loads[..n]);
      assert forall j :: 0 <= j < n ==> loads[j] == loads[..n][j];
      if loads[n] < loads[i] then n else i
  }

  /** k tickets poured one at a time into the least load. */
  function Poured(loads: seq<nat>, k: nat): (r: seq<nat>)
    ensures |r| == |loads|
  {
    if k == 0 || loads == [] then loads
    else
      var before := Poured(loads, k - 1);
      var i := Least(before);
      before[i := before[i] + 1]
  }

  ghost predicate IsLeast(loads: seq<nat>, i: nat) {
    i < |loads| && forall j :: 0 <= j < |loads| ==> loads[i] <= loads[j]
  }

  /** The least load at position i takes one more ticket. */
  ghost predicate Raises(a: seq<nat>, i: nat, b: seq<nat>) {
    IsLeast(a, i) && b == a[i := a[i] + 1]
  }

  /** Which of several least loads is raised makes no difference to the loads as a whole. */
  lemma RaiseAnyLeast(a: seq<nat>, i: nat, raised: seq<nat>, b: seq<nat>, j: nat, also: seq<nat>)
    requires multiset(a) == multiset(b) && Raises(a, i, raised) && Raises(b, j, also)
    ensures multiset(raised) == multiset(also)
  {
    assert a[i] in multiset(b) && b[j] in multiset(a);
    assert a[i] in b && b[j] in a;
  }

  lemma {:induction false} LoadsSame(ts: seq<Ticket>, us: seq<Ticket>, pumps: seq<Pump>, n: nat)
    requires n <= |pumps| && forall p :: 0 <= p < n ==> Load(us, p) == Load(ts, p)
    ensures Loads(us, pumps, n) == Loads(ts, pumps, n)
  {
    if n > 0 {
      LoadsSame(ts, us, pumps, n - 1);
    }
  }

  /** Serving pump q raises its load, which is a least one. */
  lemma {:induction false} LoadsServed(ts: seq<Ticket>, us: seq<Ticket>, pumps: seq<Pump>, q: nat, n: nat)
    requires Served(ts, us, pumps, q) && q < n <= |pumps|
    ensures Raises(Loads(ts, pumps, n), WorkingCount(pumps, q), Loads(us, pumps, n))
    ensures Loads(ts, pumps, n)[WorkingCount(pumps, q)] == Load(ts, q)
  {
    if q < n - 1 {
      LoadsServed(ts, us, pumps, q, n - 1);
    } else {
      LoadsSame(ts, us, pumps, q);
      LoadsAbove(ts, pumps, q, Load(ts, q));
    }
  }

  lemma {:induction false} LoadsAbove(ts: seq<Ticket>, pumps: seq<Pump>, n: nat, m: nat)
    requires n <= |pumps| && forall p :: 0 <= p < n && pumps[p].status == Working ==> m <= Load(ts, p)
    ensures forall j :: 0 <= j < |Loads(ts, pumps, n)| ==> m <= Loads(ts, pumps, n)[j]
  {
    if n > 0 {
      LoadsAbove(ts, pumps, n - 1, m);
    }
  }

  // ---- one delivery ----

  /** A ticket that will be a pump's work once it is confirmed. */
  predicate Unserved(row: Ticket) {
    (row.status == Pending || Busy(row)) && row.pump.None?
  }

  predicate HitsUnserved(ts: seq<Ticket>, d: Delivery) {
    exists t :: 0 <= t < |ts| && Hits(d, ts[t]) && Unserved(ts[t])
  }

  predicate HitsPayable(ts: seq<Ticket>, d: Delivery) {
    exists t :: 0 <= t < |ts| && Hits(d, ts[t]) && Payable(ts[t])
  }

  /** What a delivery may do to the rows, loads and pumps of a plant. */
  ghost predicate Lands(db: Db, after: Db, d: Delivery) {
    var pumps := EnsureDefault(db.pumps);
    && |after.tickets| == |db.tickets|
    && (forall t :: 0 <= t < |db.tickets| ==> Becomes(db.tickets[t], after.tickets[t], Hits(d, db.tickets[t]), pumps))
    && after == db.(tickets := after.tickets, pumps := after.pumps, clock := after.clock)
    && after.pumps == (if HitsPayable(db.tickets, d) then pumps else db.pumps)
    && (if AnyWorks(pumps) && HitsUnserved(db.tickets, d)
        then exists q: nat :: Served(db.tickets, after.tickets, pumps, q)
        else Unchanged(db.tickets, after.tickets))
  }

  /** The confirmed row and the loads: a ticket without a pump is given to a least busy one, and nothing else moves. */
  lemma {:induction false} ConfirmedRowLoads(db: Db, t: nat)
    requires Valid(db) && t < |db.tickets| && Payable(db.tickets[t])
    ensures var us, pumps := db.tickets[t := ConfirmedRow(db, t)], EnsureDefault(db.pumps);
      && Becomes(db.tickets[t], us[t], true, pumps)
      && (if AnyWorks(pumps) && Unserved(db.tickets[t]) then exists q: nat :: Served(db.tickets, us, pumps, q)
          else Unchanged(db.tickets, us))
  {
    var row, pumps := db.tickets[t], EnsureDefault(db.pumps);
    var after := ConfirmedRow(db, t);
    var us := db.tickets[t := after];
    assert RowOk(row, |db.shifts|, |db.pumps|, db.clock);
    ChoiceWorks(db.tickets, pumps);
    if row.pump.Some? {
      assert us == db.tickets;
    } else {
      forall p: nat ensures Load(us, p) == Load(db.tickets, p) + (if Carries(after, p) then 1 else 0) {
        LoadRises(db.tickets, t, after, p);
      }
      if AnyWorks(pumps) && Unserved(row) {
        LeastBusyFirst(db.tickets, pumps, |pumps|);
        assert Served(db.tickets, us, pumps, after.pump.value);
      }
    }
  }

  /** References are unique: a delivery hits one ticket at most. */
  lemma HitsOne(db: Db, d: Delivery, t: nat, u: nat)
    requires Valid(db) && t < |db.tickets| && u < |db.tickets| && Hits(d, db.tickets[t]) && Hits(d, db.tickets[u])
    ensures t == u
  {
    assert ReferencesOk(db.tickets);
  }

  lemma {:induction false} DeliveryLands(db: Db, d: Delivery)
    requires Valid(db)
    ensures Lands(db, Apply(db, Step.Deliver(d.reference, d.outcome)), d)
  {
    hide Transactions.Deliver, Valid, LeastBusy, Served;
    if t :| 0 <= t < |db.tickets| && Hits(d, db.tickets[t]) && Payable(db.tickets[t]) {
      DeliverRow(db, t, d);
      ConfirmedRowLoads(db, t);
      forall u | 0 <= u < |db.tickets| && Hits(d, db.tickets[u]) ensures u == t {
        HitsOne(db, d, t, u);
      }
      hide ConfirmedRow, Hits;
    } else {
      DeliverMisses(db, d);
    }
  }

  // ---- any deliveries ----

  /** The tickets that deliveries make some pump's work. */
  ghost function Joining(ts: seq<Ticket>, ds: seq<Delivery>): set<nat> {
    set t: nat | t < |ts| && Unserved(ts[t]) && Confirmed(ds, ts[t])
  }

  ghost predicate RowsSettle(db: Db, after: Db, ds: seq<Delivery>) {
    && |after.tickets| == |db.tickets|
    && forall t :: 0 <= t < |db.tickets| ==>
         Becomes(db.tickets[t], after.tickets[t], Confirmed(ds, db.tickets[t]), EnsureDefault(db.pumps))
  }

  /** The loads are those of pouring the joining tickets, but for which pump has which. */
  ghost predicate LoadsSettle(db: Db, after: Db, ds: seq<Delivery>) {
    var pumps := EnsureDefault(db.pumps);
    && multiset(Loads(after.tickets, pumps, |pumps|))
       == multiset(Poured(Loads(db.tickets, pumps, |pumps|), |Joining(db.tickets, ds)|))
    && forall p: nat :: !WorkingPump(pumps, Some(p)) ==> Load(after.tickets, p) == Load(db.tickets, p)
  }

  ghost predicate PaysSome(db: Db, ds: seq<Delivery>) {
    exists t :: 0 <= t < |db.tickets| && Confirmed(ds, db.tickets[t]) && Payable(db.tickets[t])
  }

  /** Everything but the clock, the payment times and the choice among equal pumps. */
  ghost predicate AllSettle(db: Db, after: Db, ds: seq<Delivery>) {
    && RowsSettle(db, after, ds) && LoadsSettle(db, after, ds)
    && after == db.(tickets := after.tickets, pumps := after.pumps, clock := after.clock)
    && after.pumps == (if PaysSome(db, ds) then EnsureDefault(db.pumps) else db.pumps)
  }

  lemma RowsStep(db: Db, mid: Db, after: Db, ds: seq<Delivery>)
    requires ds != [] && RowsSettle(db, mid, ds[..|ds| - 1]) && Lands(mid, after, ds[|ds| - 1])
    requires EnsureDefault(mid.pumps) == EnsureDefault(db.pumps)
    ensures RowsSettle(db, after, ds)
  {
    var n := |ds| - 1;
    forall t | 0 <= t < |db.tickets|
      ensures Becomes(db.tickets[t], after.tickets[t], Confirmed(ds, db.tickets[t]), EnsureDefault(db.pumps))
    {
      var row, pumps := db.tickets[t], EnsureDefault(db.pumps);
      assert Hits(ds[n], mid.tickets[t]) == Hits(ds[n], row);
      LastHit(ds, row);
      BecomesTwice(row, mid.tickets[t], after.tickets[t], Confirmed(ds[..n], row), Hits(ds[n], row), pumps);
    }
  }

  lemma PumpsStep(db: Db, mid: Db, after: Db, ds: seq<Delivery>)
    requires ds != [] && RowsSettle(db, mid, ds[..|ds| - 1]) && Lands(mid, after, ds[|ds| - 1])
    requires mid.pumps == (if PaysSome(db, ds[..|ds| - 1]) then EnsureDefault(db.pumps) else db.pumps)
    ensures after.pumps == (if PaysSome(db, ds) then EnsureDefault(db.pumps) else db.pumps)
  {
    var n := |ds| - 1;
    forall t | 0 <= t < |db.tickets|
      ensures Confirmed(ds, db.tickets[t]) <==> Confirmed(ds[..n], db.tickets[t]) || Hits(ds[n], mid.tickets[t])
      ensures Payable(mid.tickets[t]) == Payable(db.tickets[t])
    {
      LastHit(ds, db.tickets[t]);
      assert Becomes(db.tickets[t], mid.tickets[t], Confirmed(ds[..n], db.tickets[t]), EnsureDefault(db.pumps));
    }
    hide Confirmed, Hits, Payable;
  }

  /** The ticket a delivery serves is one that joins now. */
  lemma ServedJoins(db: Db, mid: Db, ds: seq<Delivery>, t: nat)
    requires ds != [] && RowsSettle(db, mid, ds[..|ds| - 1]) && t < |db.tickets| && AnyWorks(EnsureDefault(db.pumps))
    ensures Hits(ds[|ds| - 1], mid.tickets[t]) && Unserved(mid.tickets[t])
       <==> t in Joining(db.tickets, ds) && t !in Joining(db.tickets, ds[..|ds| - 1])
  {
    LastHit(ds, db.tickets[t]);
    assert Becomes(db.tickets[t], mid.tickets[t], Confirmed(ds[..|ds| - 1], db.tickets[t]), EnsureDefault(db.pumps));
  }

  lemma JoiningStep(db: Db, mid: Db, ds: seq<Delivery>)
    requires ds != [] && Valid(mid) && RowsSettle(db, mid, ds[..|ds| - 1]) && AnyWorks(EnsureDefault(db.pumps))
    ensures |Joining(db.tickets, ds)| == |Joining(db.tickets, ds[..|ds| - 1])|
      + (if HitsUnserved(mid.tickets, ds[|ds| - 1]) then 1 else 0)
  {
    var n := |ds| - 1;
    var before, now := Joining(db.tickets, ds[..n]), Joining(db.tickets, ds);
    forall t: nat | t < |db.tickets|
      ensures Hits(ds[n], mid.tickets[t]) && Unserved(mid.tickets[t]) <==> t in now && t !in before
      ensures t in before ==> t in now
    {
      ServedJoins(db, mid, ds, t);
      LastHit(ds, db.tickets[t]);
    }
    if t: nat :| t < |mid.tickets| && Hits(ds[n], mid.tickets[t]) && Unserved(mid.tickets[t]) {
      forall u: nat | u < |mid.tickets| && Hits(ds[n], mid.tickets[u]) ensures u == t {
        HitsOne(mid, ds[n], t, u);
      }
      assert now == before + {t};
    } else {
      assert now == before;
    }
  }

  lemma {:induction false} NoneWork(pumps: seq<Pump>, n: nat)
    requires n <= |pumps| && !AnyWorks(pumps)
    ensures WorkingCount(pumps, n) == 0
  {
    if n > 0 {
      NoneWork(pumps, n - 1);
    }
  }

  lemma SameSize(a: seq<nat>, b: seq<nat>)
    requires multiset(a) == multiset(b)
    ensures |a| == |b|
  {
    assert |multiset(a)| == |multiset(b)|;
  }

  /** Serving a pump is one more ticket poured. */
  lemma {:induction false} ServedPours(ts: seq<Ticket>, us: seq<Ticket>, pumps: seq<Pump>, q: nat,
                                       start: seq<nat>, k: nat)
    requires Served(ts, us, pumps, q) && multiset(Loads(ts, pumps, |pumps|)) == multiset(Poured(start, k))
    ensures multiset(Loads(us, pumps, |pumps|)) == multiset(Poured(start, k + 1))
  {
    var loads, poured := Loads(ts, pumps, |pumps|), Poured(start, k);
    LoadsServed(ts, us, pumps, q, |pumps|);
    SameSize(loads, poured);
    hide Served, Loads, Poured, Least, WorkingCount, Raises;
    PouredNext(start, k);
    var now, more := Loads(us, pumps, |pumps|), Poured(start, k + 1);
    RaiseAnyLeast(loads, WorkingCount(pumps, q), now, poured, Least(poured), more);
  }

  lemma PouredNext(start: seq<nat>, k: nat)
    requires start != []
    ensures Poured(start, k) != [] && Raises(Poured(start, k), Least(Poured(start, k)), Poured(start, k + 1))
  {
  }

  /** Where no pump works there are no loads to speak of. */
  lemma NothingPours(ts: seq<Ticket>, pumps: seq<Pump>, us: seq<Ticket>, k: nat)
    requires !AnyWorks(pumps)
    ensures Loads(us, pumps, |pumps|) == Poured(Loads(ts, pumps, |pumps|), k)
  {
    NoneWork(pumps, |pumps|);
  }

  lemma {:induction false} LoadsStep(db: Db, mid: Db, after: Db, ds: seq<Delivery>)
    requires ds != [] && Valid(mid) && RowsSettle(db, mid, ds[..|ds| - 1]) && LoadsSettle(db, mid, ds[..|ds| - 1])
    requires Lands(mid, after, ds[|ds| - 1]) && EnsureDefault(mid.pumps) == EnsureDefault(db.pumps)
    ensures LoadsSettle(db, after, ds)
  {
    var pumps, n := EnsureDefault(db.pumps), |ds| - 1;
    hide Valid, RowsSettle, Becomes, Hits, Unserved, Joining, Poured, Loads, Load, EnsureDefault, WorkingPump;
    if !AnyWorks(pumps) {
      NothingPours(db.tickets, pumps, after.tickets, |Joining(db.tickets, ds)|);
    } else {
      JoiningStep(db, mid, ds);
      if HitsUnserved(mid.tickets, ds[n]) {
        var q: nat :| Served(mid.tickets, after.tickets, pumps, q);
        var start, joined := Loads(db.tickets, pumps, |pumps|), |Joining(db.tickets, ds[..n])|;
        ServedPours(mid.tickets, after.tickets, pumps, q, start, joined);
        OthersStay(mid.tickets, after.tickets, pumps, q);
      } else {
        LoadsSame(mid.tickets, after.tickets, pumps, |pumps|);
      }
    }
  }

  lemma OthersStay(ts: seq<Ticket>, us: seq<Ticket>, pumps: seq<Pump>, q: nat)
    requires Served(ts, us, pumps, q)
    ensures forall p: nat :: !WorkingPump(pumps, Some(p)) ==> Load(us, p) == Load(ts, p)
  {
  }

  /** Any deliveries for any tickets: every row, the pumps and the loads follow from which tickets they confirm. */
  lemma {:induction false} DeliveriesToAny(db: Db, ds: seq<Delivery>)
    requires Valid(db)
    ensures AllSettle(db, Run(db, Arriving(ds)), ds)
  {
    if ds == [] {
      assert Joining(db.tickets, ds) == {};
    } else {
      hide Apply, Valid, RowsSettle, LoadsSettle, Lands, PaysSome;
      var n := |ds| - 1;
      var steps := Arriving(ds);
      assert steps[..n] == Arriving(ds[..n]);
      DeliveriesToAny(db, ds[..n]);
      RunKeeps(db, steps[..n]);
      var mid, after := Run(db, steps[..n]), Run(db, steps);
      DeliveryLands(mid, ds[n]);
      RowsStep(db, mid, after, ds);
      PumpsStep(db, mid, after, ds);
      LoadsStep(db, mid, after, ds);
      RestStays(mid, after, ds[n]);
    }
  }

  /** In particular a pending ticket is paid exactly when one delivery names it, and reports success and its amount. */
  lemma {:induction false} PaidExactlyAmong(db: Db, ds: seq<Delivery>, t: nat)
    requires Valid(db) && t < |db.tickets| && db.tickets[t].status == Pending
    ensures var row := db.tickets[t]; var after := Run(db, Arriving(ds));
      && t < |after.tickets|
      && (after.tickets[t].status == Paid
          <==> exists i :: 0 <= i < |ds| && ds[i].reference == row.reference && ds[i].outcome.Some?
                           && ds[i].outcome.value.status == "success" && ds[i].outcome.value.amount == row.amount
                           && (ds[i].outcome.value.currency == "" || ds[i].outcome.value.currency == "NGN"))
  {
    DeliveriesToAny(db, ds);
    var row := db.tickets[t];
    assert Becomes(row, Run(db, Arriving(ds)).tickets[t], Confirmed(ds, row), EnsureDefault(db.pumps));
    hide Run, Valid, LoadsSettle;
    if Confirmed(ds, row) {
      var i :| 0 <= i < |ds| && Hits(ds[i], row);
      assert ds[i].reference == row.reference;
    }
    if i :| 0 <= i < |ds| && ds[i].reference == row.reference && Settles(ds[i].outcome, row.amount) {
      assert Hits(ds[i], row);
    }
  }

  lemma RestStays(mid: Db, after: Db, d: Delivery)
    requires Lands(mid, after, d)
    ensures after.shifts == mid.shifts && after.movements == mid.movements
  {
  }

  /**
   The order, and the number, of deliveries for any tickets do not matter, only which tickets they confirm: the same
   statuses and the same other columns, but for the time of a new payment and the choice of a new pump; the same pumps;
   and the same loads, but for which pump carries which.
   */
  lemma {:induction false} DeliveriesCommute(db: Db, xs: seq<Delivery>, ys: seq<Delivery>)
    requires Valid(db)
    requires forall t :: 0 <= t < |db.tickets| ==> (Confirmed(xs, db.tickets[t]) <==> Confirmed(ys, db.tickets[t]))
    ensures var a, b := Run(db, Arriving(xs)), Run(db, Arriving(ys)); var pumps := EnsureDefault(db.pumps);
      && |a.tickets| == |b.tickets| == |db.tickets| && a.pumps == b.pumps
      && a.shifts == b.shifts && a.movements == b.movements
      && (forall t :: 0 <= t < |db.tickets| ==> SameButChoice(db.tickets[t], a.tickets[t], b.tickets[t]))
      && multiset(Loads(a.tickets, pumps, |pumps|)) == multiset(Loads(b.tickets, pumps, |pumps|))
      && forall p: nat :: !WorkingPump(pumps, Some(p)) ==> Load(a.tickets, p) == Load(b.tickets, p)
  {
    DeliveriesToAny(db, xs);
    DeliveriesToAny(db, ys);
    assert Joining(db.tickets, xs) == Joining(db.tickets, ys);
    forall t | 0 <= t < |db.tickets|
      ensures SameButChoice(db.tickets[t], Run(db, Arriving(xs)).tickets[t], Run(db, Arriving(ys)).tickets[t])
    {
      var row, pumps := db.tickets[t], EnsureDefault(db.pumps);
      assert Becomes(row, Run(db, Arriving(xs)).tickets[t], Confirmed(xs, row), pumps);
      assert Becomes(row, Run(db, Arriving(ys)).tickets[t], Confirmed(ys, row), pumps);
    }
    hide Run, Confirmed, Valid, RowsSettle, Poured;
  }

  /** Two outcomes of one row: equal but for a new payment's time and a new pump's choice. */
  predicate SameButChoice(row: Ticket, a: Ticket, b: Ticket) {
    && b == a.(paidAt := b.paidAt, pump := b.pump)
    && a.paidAt.Some? == b.paidAt.Some? && (row.status != Pending ==> a.paidAt == b.paidAt)
    && a.pump.Some? == b.pump.Some? && (row.pump.Some? ==> a.pump == b.pump)
  }

  /** The choice of pump does depend on the order: of two pending tickets the first one paid gets the first pump. */
  lemma {:induction false} FirstPaidFirstServed(db: Db, t: nat, u: nat, d: Delivery, e: Delivery, p: nat, q: nat)
    requires Valid(db) && t < |db.tickets| && u < |db.tickets| && t != u
    requires db.tickets[t].status == db.tickets[u].status == Pending && Hits(d, db.tickets[t]) && Hits(e, db.tickets[u])
    requires var pumps := EnsureDefault(db.pumps);
      && LeastBusy(db.tickets, pumps, |pumps|) == Some(p)
      && q < |pumps| && q != p && pumps[q].status == Working && Load(db.tickets, q) == Load(db.tickets, p)
    ensures |Run(db, Arriving([d, e])).tickets| == |Run(db, Arriving([e, d])).tickets| == |db.tickets|
    ensures Run(db, Arriving([d, e])).tickets[t].pump == Some(p)
    ensures Run(db, Arriving([e, d])).tickets[t].pump.Some? && Run(db, Arriving([e, d])).tickets[t].pump != Some(p)
  {
    PaidFirst(db, t, d, e);
    PaidSecond(db, u, t, e, d, p, q);
  }

  lemma RunTwo(db: Db, d: Delivery, e: Delivery)
    ensures Run(db, Arriving([d, e]))
         == Apply(Apply(db, Step.Deliver(d.reference, d.outcome)), Step.Deliver(e.reference, e.outcome))
  {
    var steps := Arriving([d, e]);
    assert steps[..1] == [steps[0]] && steps[..1][..0] == [];
    assert Run(db, []) == db;
    assert Run(db, steps[..1]) == Apply(db, steps[0]);
  }

  lemma {:induction false} PaidFirst(db: Db, t: nat, d: Delivery, e: Delivery)
    requires Valid(db) && t < |db.tickets| && db.tickets[t].status == Pending && Hits(d, db.tickets[t])
    requires LeastBusy(db.tickets, EnsureDefault(db.pumps), |EnsureDefault(db.pumps)|).Some?
    ensures |Run(db, Arriving([d, e])).tickets| == |db.tickets|
    ensures Run(db, Arriving([d, e])).tickets[t].pump
      == LeastBusy(db.tickets, EnsureDefault(db.pumps), |EnsureDefault(db.pumps)|)
  {
    hide Transactions.Deliver, LeastBusy;
    var step := Step.Deliver(d.reference, d.outcome);
    assert RowOk(db.tickets[t], |db.shifts|, |db.pumps|, db.clock);
    DeliverRow(db, t, d);
    StepKeeps(db, step);
    DeliveryLands(Apply(db, step), e);
    RunTwo(db, d, e);
    hide Run, Valid;
  }

  lemma {:induction false} PaidSecond(db: Db, u: nat, t: nat, e: Delivery, d: Delivery, p: nat, q: nat)
    requires Valid(db) && t < |db.tickets| && u < |db.tickets| && t != u
    requires db.tickets[t].status == db.tickets[u].status == Pending && Hits(d, db.tickets[t]) && Hits(e, db.tickets[u])
    requires var pumps := EnsureDefault(db.pumps);
      && LeastBusy(db.tickets, pumps, |pumps|) == Some(p)
      && q < |pumps| && q != p && pumps[q].status == Working && Load(db.tickets, q) == Load(db.tickets, p)
    ensures |Run(db, Arriving([e, d])).tickets| == |db.tickets|
    ensures Run(db, Arriving([e, d])).tickets[t].pump.Some? && Run(db, Arriving([e, d])).tickets[t].pump != Some(p)
  {
    hide Transactions.Deliver, LeastBusy;
    var pumps := EnsureDefault(db.pumps);
    var step := Step.Deliver(e.reference, e.outcome);
    assert RowOk(db.tickets[u], |db.shifts|, |db.pumps|, db.clock);
    assert RowOk(db.tickets[t], |db.shifts|, |db.pumps|, db.clock);
    DeliverRow(db, u, e);
    StepKeeps(db, step);
    var mid := Apply(db, step);
    LoadRises(db.tickets, u, mid.tickets[u], p);
    LoadRises(db.tickets, u, mid.tickets[u], q);
    DeliverRow(mid, t, d);
    LeastBusyFirst(mid.tickets, pumps, |pumps|);
    RunTwo(db, e, d);
    hide Run, Valid;
  }
}
