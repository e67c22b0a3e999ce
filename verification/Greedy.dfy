/** The pump allocator: the least busy pump is the right one, over whole runs of sales, payments and departures. */
module Greedy {
  import opened Basics
  import opened Tables
  import opened Transactions
  import opened Runs
  import opened Validity

  // ---- one choice ----

  /**
   The choice is a working pump that every other one exceeds in load, or equals in load and exceeds in sort
   order, or equals in both and is younger than; there is none exactly when no pump works.
   */
  lemma {:induction false} LeastBusyFirst(ts: seq<Ticket>, pumps: seq<Pump>, n: nat)
    requires n <= |pumps|
    ensures var r := LeastBusy(ts, pumps, n);
      if r.None? then forall p :: 0 <= p < n ==> pumps[p].status != Working
      else
        && r.value < n && pumps[r.value].status == Working
        && forall p :: 0 <= p < n && pumps[p].status == Working && p != r.value ==>
             || Load(ts, r.value) < Load(ts, p)
             || (Load(ts, r.value) == Load(ts, p) && pumps[r.value].sortOrder < pumps[p].sortOrder)
             || (Load(ts, r.value) == Load(ts, p) && pumps[r.value].sortOrder == pumps[p].sortOrder && r.value < p)
  {
    if n > 0 {
      LeastBusyFirst(ts, pumps, n - 1);
    }
  }

  predicate Carries(t: Ticket, p: nat) {
    Busy(t) && t.pump == Some(p)
  }

  /** Rows are replaced and added without giving pump p new work. */
  ghost predicate NoGain(ts: seq<Ticket>, us: seq<Ticket>, p: nat) {
    && |ts| <= |us|
    && forall i :: 0 <= i < |us| && Carries(us[i], p) ==> i < |ts| && Carries(ts[i], p)
  }

  lemma {:induction false} LoadFalls(ts: seq<Ticket>, us: seq<Ticket>, p: nat)
    requires NoGain(ts, us, p)
    ensures Load(us, p) <= Load(ts, p)
    decreases |us|
  {
    if us != [] {
      var n := |us| - 1;
      if |ts| < |us| {
        LoadFalls(ts, us[..n], p);
      } else {
        LoadFalls(ts[..n], us[..n], p);
      }
    }
  }

  /** Row t starts to carry pump p and nothing else changes. */
  lemma {:induction false} LoadRises(ts: seq<Ticket>, t: nat, row: Ticket, p: nat)
    requires t < |ts| && !Carries(ts[t], p)
    ensures Load(ts[t := row], p) == Load(ts, p) + (if Carries(row, p) then 1 else 0)
  {
    var n := |ts| - 1;
    if t == n {
      assert ts[t := row][..n] == ts[..n];
    } else {
      assert ts[t := row][..n] == ts[..n][t := row];
      LoadRises(ts[..n], t, row, p);
    }
  }

  // ---- one transaction ----

  /** Pump q, a working pump no busier than any other working one, takes one more ticket; the rest stay. */
  ghost predicate Served(ts: seq<Ticket>, us: seq<Ticket>, pumps: seq<Pump>, q: nat) {
    && q < |pumps| && pumps[q].status == Working
    && Load(us, q) == Load(ts, q) + 1
    && (forall p: nat :: p != q ==> Load(us, p) == Load(ts, p))
    && (forall p :: 0 <= p < |pumps| && pumps[p].status == Working ==> Load(ts, q) <= Load(ts, p))
  }

  ghost predicate Unchanged(ts: seq<Ticket>, us: seq<Ticket>) {
    forall p: nat :: Load(us, p) == Load(ts, p)
  }

  ghost predicate Relieved(ts: seq<Ticket>, us: seq<Ticket>) {
    forall p: nat :: Load(us, p) <= Load(ts, p)
  }

  /** What a sale or a payment may do to the loads: nothing, or serve one pump. */
  ghost predicate Assigned(ts: seq<Ticket>, us: seq<Ticket>, pumps: seq<Pump>) {
    Unchanged(ts, us) || exists q: nat :: Served(ts, us, pumps, q)
  }

  lemma NoCarrier(ts: seq<Ticket>, us: seq<Ticket>)
    requires forall p: nat :: NoGain(ts, us, p)
    ensures Relieved(ts, us)
  {
    forall p: nat ensures Load(us, p) <= Load(ts, p) {
      LoadFalls(ts, us, p);
    }
  }

  /** Replacing an idle row by another idle one, or adding an idle row, leaves every load. */
  lemma IdleRow(ts: seq<Ticket>, t: nat, row: Ticket)
    requires forall p: nat :: !Carries(row, p)
    requires t <= |ts| && (t < |ts| ==> forall p: nat :: !Carries(ts[t], p))
    ensures Unchanged(ts, if t < |ts| then ts[t := row] else ts + [row])
  {
    forall p: nat ensures Load(if t < |ts| then ts[t := row] else ts + [row], p) == Load(ts, p) {
      assert !Carries(row, p);
      if t < |ts| {
        LoadRises(ts, t, row, p);
      } else {
        assert (ts + [row])[..|ts|] == ts;
      }
    }
  }

  /** Assignment gives a busy ticket without a pump to a minimal one, and moves no load otherwise. */
  lemma AssignmentServes(db: Db, t: nat)
    requires t < |db.tickets|
    ensures Assigned(db.tickets, AssignLeastBusy(db, t).0.tickets, EnsureDefault(db.pumps))
    ensures AssignLeastBusy(db, t).0.pumps == EnsureDefault(db.pumps)
  {
    AssignmentRow(db, t);
    var row, pumps := AssignedRow(db, t), EnsureDefault(db.pumps);
    var us := db.tickets[t := row];
    if row == db.tickets[t] {
      assert us == db.tickets;
    } else {
      var q := row.pump.value;
      forall p: nat ensures Load(us, p) == Load(db.tickets, p) + (if Carries(row, p) then 1 else 0) {
        LoadRises(db.tickets, t, row, p);
      }
      if Busy(row) {
        LeastBusyFirst(db.tickets, pumps, |pumps|);
        assert Served(db.tickets, us, pumps, q);
      }
    }
  }

  lemma AfterUnchanged(ts: seq<Ticket>, us: seq<Ticket>, vs: seq<Ticket>, pumps: seq<Pump>)
    requires Unchanged(ts, us) && Assigned(us, vs, pumps)
    ensures Assigned(ts, vs, pumps)
  {
    if !Unchanged(us, vs) {
      var q: nat :| Served(us, vs, pumps, q);
      assert Served(ts, vs, pumps, q);
    }
  }

  lemma DeliverServes(db: Db, reference: string, outcome: Option<Verification>)
    requires Valid(db)
    ensures var after := Transactions.Deliver(db, reference, outcome);
      && Assigned(db.tickets, after.tickets, EnsureDefault(db.pumps))
      && EnsureDefault(after.pumps) == EnsureDefault(db.pumps)
  {
    var t := FindReference(db.tickets, reference);
    if t < |db.tickets| && outcome.Some? && Confirms(outcome.value, db.tickets[t].amount) {
      var row := db.tickets[t];
      assert RowOk(row, |db.shifts|, |db.pumps|, db.clock);
      if row.status == Pending {
        var paid := row.(status := Paid, paidAt := Some(db.clock));
        IdleRow(db.tickets, t, paid);
        AssignmentServes(db.(tickets := db.tickets[t := paid]), t);
        AfterUnchanged(db.tickets, db.tickets[t := paid], Transactions.Deliver(db, reference, outcome).tickets,
                       EnsureDefault(db.pumps));
      } else if row.status != Voided {
        AssignmentServes(db, t);
      }
    }
  }

  lemma {:induction false} BuyOnlineServes(db: Db, isOpen: bool, price: Option<int>, amount: nat, channel: Channel,
                                           phone: string, reference: string, draw: Draw)
    ensures var after := Transactions.BuyOnline(db, isOpen, price, amount, channel, phone, reference, draw);
      Unchanged(db.tickets, after.tickets) && after.pumps == db.pumps
  {
    var after := Transactions.BuyOnline(db, isOpen, price, amount, channel, phone, reference, draw);
    if |after.tickets| > |db.tickets| {
      IdleRow(db.tickets, |db.tickets|, after.tickets[|db.tickets|]);
    }
  }

  lemma CashSaleServes(db: Db, isOpen: bool, price: Option<int>, amount: nat, phone: string,
                       reference: string, draw: Draw, user: nat, shift: nat)
    ensures var r := Transactions.CashSale(db, isOpen, price, amount, phone, reference, draw, user, shift);
      r.Ok? ==>
        Assigned(db.tickets, r.value.0.tickets, EnsureDefault(db.pumps)) && r.value.0.pumps == EnsureDefault(db.pumps)
  {
    var r := Transactions.CashSale(db, isOpen, price, amount, phone, reference, draw, user, shift);
    if r.Ok? {
      var o := Order(reference, phone, GramsFromAmount(amount, price.value), price.value, amount, Cash,
                     true, Some(user), Some(shift));
      var row := NewTicket(o, ChosenCode(db, o, draw, 0).value, db.clock);
      var sold := db.(tickets := db.tickets + [row]);
      IdleRow(db.tickets, |db.tickets|, row);
      AssignmentServes(sold, |db.tickets|);
      AfterUnchanged(db.tickets, sold.tickets, r.value.0.tickets, EnsureDefault(db.pumps));
    }
  }

  /** Sales and payments. */
  predicate IsArrival(s: Step) {
    s.BuyOnline? || s.CashSale? || s.Deliver?
  }

  lemma ArrivalServes(db: Db, s: Step)
    requires Valid(db) && IsArrival(s)
    ensures Assigned(db.tickets, Apply(db, s).tickets, EnsureDefault(db.pumps))
    ensures EnsureDefault(Apply(db, s).pumps) == EnsureDefault(db.pumps)
  {
    match s {
      case BuyOnline(isOpen, price, amount, channel, phone, reference, draw) =>
        BuyOnlineServes(db, isOpen, price, amount, channel, phone, reference, draw);
      case CashSale(isOpen, price, amount, phone, reference, draw, user, shift) =>
        CashSaleServes(db, isOpen, price, amount, phone, reference, draw, user, shift);
      case Deliver(reference, outcome) => DeliverServes(db, reference, outcome);
      case _ =>
    }
  }

  lemma DepartureGainsNothing(db: Db, s: Step, p: nat)
    requires !IsArrival(s) && !s.UpsertPump?
    ensures NoGain(db.tickets, Apply(db, s).tickets, p)
  {
    match s {
      case StartDispensing(t, actor) =>
      case CloseFilled(t, shift, actor, note) =>
      case BulkCloseFilled(pump, shift, actor, note) =>
      case Fill(t, shift) =>
      case Void(reference, actor, reason) =>
      case Confirm(reference, phone) =>
      case _ =>
    }
  }

  /** No other transaction gives any pump more work. */
  lemma DepartureRelieves(db: Db, s: Step)
    requires !IsArrival(s) && !s.UpsertPump?
    ensures Relieved(db.tickets, Apply(db, s).tickets) && EnsureDefault(Apply(db, s).pumps) == EnsureDefault(db.pumps)
  {
    forall p: nat ensures NoGain(db.tickets, Apply(db, s).tickets, p) {
      DepartureGainsNothing(db, s, p);
    }
    hide NoGain, Relieved;
    NoCarrier(db.tickets, Apply(db, s).tickets);
  }

  // ---- totals ----

  function WorkingCount(pumps: seq<Pump>, n: nat): nat
    requires n <= |pumps|
  {
    if n == 0 then 0 else WorkingCount(pumps, n - 1) + (if pumps[n - 1].status == Working then 1 else 0)
  }

  /** The load of all working pumps together. */
  function Total(ts: seq<Ticket>, pumps: seq<Pump>, n: nat): nat
    requires n <= |pumps|
  {
    if n == 0 then 0 else Total(ts, pumps, n - 1) + (if pumps[n - 1].status == Working then Load(ts, n - 1) else 0)
  }

  function CeilDiv(n: nat, d: nat): nat
    requires d > 0
  {
    (n + d - 1) / d
  }

  /** The ceiling is the least m with d * m >= n. */
  lemma {:induction false} CeilDivLeast(n: nat, d: nat, m: nat)
    requires d > 0
    ensures CeilDiv(n, d) <= m <==> n <= d * m
  {
    var q := CeilDiv(n, d);
    assert d * q <= n + d - 1 < d * q + d;
    if q <= m {
      assert d * q <= d * m;
    } else {
      assert d * (m + 1) <= d * q;
    }
  }

  lemma {:induction false} CeilDivMonotone(a: nat, b: nat, d: nat)
    requires d > 0 && a <= b
    ensures CeilDiv(a, d) <= CeilDiv(b, d)
  {
    CeilDivLeast(b, d, CeilDiv(b, d));
    CeilDivLeast(a, d, CeilDiv(b, d));
  }

  lemma OneMore(k: nat, m: nat)
    ensures (k + 1) * m == k * m + m
  {
  }

  /** If every working pump has load at least m, and pump q more, the total shows it. */
  lemma {:induction false} TotalAtLeast(ts: seq<Ticket>, pumps: seq<Pump>, n: nat, m: nat, q: nat)
    requires n <= |pumps| && q < |pumps| && pumps[q].status == Working && Load(ts, q) > m
    requires forall p :: 0 <= p < n && pumps[p].status == Working ==> m <= Load(ts, p)
    ensures WorkingCount(pumps, n) * m + (if q < n then 1 else 0) <= Total(ts, pumps, n)
    ensures q < n ==> WorkingCount(pumps, n) > 0
  {
    if n > 0 {
      TotalAtLeast(ts, pumps, n - 1, m, q);
      OneMore(WorkingCount(pumps, n - 1), m);
    }
  }

  /** Whatever the allocator, if no working pump carries more than m, the total is at most their number times m. */
  lemma {:induction false} TotalAtMost(ts: seq<Ticket>, pumps: seq<Pump>, n: nat, m: nat)
    requires n <= |pumps|
    requires forall p :: 0 <= p < n && pumps[p].status == Working ==> Load(ts, p) <= m
    ensures Total(ts, pumps, n) <= WorkingCount(pumps, n) * m
  {
    if n > 0 {
      TotalAtMost(ts, pumps, n - 1, m);
      OneMore(WorkingCount(pumps, n - 1), m);
    }
  }

  /** The pump just served carries no more than its fair share of the new total. */
  lemma ServedFairly(ts: seq<Ticket>, us: seq<Ticket>, pumps: seq<Pump>, q: nat)
    requires Served(ts, us, pumps, q)
    ensures WorkingCount(pumps, |pumps|) > 0
    ensures Load(us, q) <= CeilDiv(Total(us, pumps, |pumps|), WorkingCount(pumps, |pumps|))
  {
    var k, total := WorkingCount(pumps, |pumps|), Total(us, pumps, |pumps|);
    TotalAtLeast(us, pumps, |pumps|, Load(ts, q), q);
    CeilDivLeast(total, k, Load(ts, q));
  }

  // ---- runs ----

  ghost predicate PumpsFixed(steps: seq<Step>) {
    forall i :: 0 <= i < |steps| ==> !steps[i].UpsertPump?
  }

  ghost predicate ArrivalsOnly(steps: seq<Step>) {
    forall i :: 0 <= i < |steps| ==> IsArrival(steps[i])
  }

  /** The largest total load at any moment of a run, its end included. */
  function PeakTotal(db: Db, steps: seq<Step>, pumps: seq<Pump>): nat {
    var now := Total(Run(db, steps).tickets, pumps, |pumps|);
    if steps == [] then now else Max(PeakTotal(db, steps[..|steps| - 1], pumps), now)
  }

  lemma {:induction false} PumpsStay(db: Db, steps: seq<Step>)
    requires Valid(db) && PumpsFixed(steps)
    ensures EnsureDefault(Run(db, steps).pumps) == EnsureDefault(db.pumps)
  {
    if steps != [] {
      var init, s := steps[..|steps| - 1], steps[|steps| - 1];
      PumpsStay(db, init);
      RunKeeps(db, init);
      if IsArrival(s) {
        ArrivalServes(Run(db, init), s);
      } else {
        DepartureRelieves(Run(db, init), s);
      }
    }
  }

  /** A pump's load after one more step: no more than before, or within its share of the total then. */
  lemma StepFairly(db: Db, s: Step, p: nat)
    requires Valid(db) && !s.UpsertPump?
    ensures var us, pumps := Apply(db, s).tickets, EnsureDefault(db.pumps); var k := WorkingCount(pumps, |pumps|);
      Load(us, p) <= Load(db.tickets, p) || (k > 0 && Load(us, p) <= CeilDiv(Total(us, pumps, |pumps|), k))
  {
    var pumps := EnsureDefault(db.pumps);
    var us := Apply(db, s).tickets;
    if IsArrival(s) {
      ArrivalServes(db, s);
      if !Unchanged(db.tickets, us) {
        var q: nat :| Served(db.tickets, us, pumps, q);
        ServedFairly(db.tickets, us, pumps, q);
      }
    } else {
      DepartureRelieves(db, s);
    }
  }

  /**
   While the pumps stay as they are, no pump ever carries more than it started with, or than the
   peak total load spread evenly over the working pumps.
   */
  lemma {:induction false} GreedyBound(db: Db, steps: seq<Step>, p: nat)
    requires Valid(db) && PumpsFixed(steps)
    ensures var pumps := EnsureDefault(db.pumps);
      var load, k := Load(Run(db, steps).tickets, p), WorkingCount(pumps, |pumps|);
      load <= Load(db.tickets, p) || (k > 0 && load <= CeilDiv(PeakTotal(db, steps, pumps), k))
  {
    if steps != [] {
      var init, s := steps[..|steps| - 1], steps[|steps| - 1];
      GreedyBound(db, init, p);
      RunKeeps(db, init);
      PumpsStay(db, init);
      StepFairly(Run(db, init), s, p);
      var pumps := EnsureDefault(db.pumps);
      var k := WorkingCount(pumps, |pumps|);
      if k > 0 {
        CeilDivMonotone(PeakTotal(db, init, pumps), PeakTotal(db, steps, pumps), k);
        CeilDivMonotone(Total(Run(db, steps).tickets, pumps, |pumps|), PeakTotal(db, steps, pumps), k);
      }
    }
  }

  // ---- balance ----

  /** The loads of working pumps differ by at most one. */
  ghost predicate Balanced(ts: seq<Ticket>, pumps: seq<Pump>) {
    forall p, q :: 0 <= p < |pumps| && 0 <= q < |pumps| && pumps[p].status == Working && pumps[q].status == Working ==>
      Load(ts, p) <= Load(ts, q) + 1
  }

  lemma {:induction false} AssignedBalanced(ts: seq<Ticket>, us: seq<Ticket>, pumps: seq<Pump>)
    requires Assigned(ts, us, pumps) && Balanced(ts, pumps)
    ensures Balanced(us, pumps)
  {
    if !Unchanged(ts, us) {
      var q: nat :| Served(ts, us, pumps, q);
      forall p, r | 0 <= p < |pumps| && 0 <= r < |pumps| && pumps[p].status == Working && pumps[r].status == Working
        ensures Load(us, p) <= Load(us, r) + 1
      {
        assert Load(ts, p) <= Load(ts, r) + 1;
      }
    }
  }

  /** Sales and payments alone keep the loads within one of each other. */
  lemma {:induction false} BalanceKept(db: Db, steps: seq<Step>)
    requires Valid(db) && ArrivalsOnly(steps) && Balanced(db.tickets, EnsureDefault(db.pumps))
    ensures Balanced(Run(db, steps).tickets, EnsureDefault(db.pumps))
  {
    if steps != [] {
      var init, s := steps[..|steps| - 1], steps[|steps| - 1];
      BalanceKept(db, init);
      RunKeeps(db, init);
      PumpsStay(db, init);
      ArrivalServes(Run(db, init), s);
      AssignedBalanced(Run(db, init).tickets, Run(db, steps).tickets, EnsureDefault(db.pumps));
    }
  }

  /** The largest load of the first n working pumps. */
  function MaxLoad(ts: seq<Ticket>, pumps: seq<Pump>, n: nat): (m: nat)
    requires n <= |pumps|
    ensures forall p :: 0 <= p < n && pumps[p].status == Working ==> Load(ts, p) <= m
    ensures m > 0 ==> exists p :: 0 <= p < n && pumps[p].status == Working && Load(ts, p) == m
  {
    if n == 0 then 0
    else if pumps[n - 1].status == Working then Max(MaxLoad(ts, pumps, n - 1), Load(ts, n - 1))
    else MaxLoad(ts, pumps, n - 1)
  }

  /** No way to spread the same total has a smaller largest load than the even share. */
  lemma EvenShareIsLeast(ts: seq<Ticket>, pumps: seq<Pump>)
    requires WorkingCount(pumps, |pumps|) > 0
    ensures CeilDiv(Total(ts, pumps, |pumps|), WorkingCount(pumps, |pumps|)) <= MaxLoad(ts, pumps, |pumps|)
  {
    var m := MaxLoad(ts, pumps, |pumps|);
    TotalAtMost(ts, pumps, |pumps|, m);
    CeilDivLeast(Total(ts, pumps, |pumps|), WorkingCount(pumps, |pumps|), m);
  }

  /** Balanced loads are optimal: the largest is exactly the even share. */
  lemma BalancedIsOptimal(ts: seq<Ticket>, pumps: seq<Pump>)
    requires WorkingCount(pumps, |pumps|) > 0 && Balanced(ts, pumps)
    ensures MaxLoad(ts, pumps, |pumps|) == CeilDiv(Total(ts, pumps, |pumps|), WorkingCount(pumps, |pumps|))
  {
    EvenShareIsLeast(ts, pumps);
    var m := MaxLoad(ts, pumps, |pumps|);
    if m > 0 {
      var q :| 0 <= q < |pumps| && pumps[q].status == Working && Load(ts, q) == m;
      TotalAtLeast(ts, pumps, |pumps|, m - 1, q);
      CeilDivLeast(Total(ts, pumps, |pumps|), WorkingCount(pumps, |pumps|), m - 1);
    }
  }
}
