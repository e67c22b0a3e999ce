/** Racing payment confirmations have one outcome, and a bulk close is its single closes in any order. */
module Settlement {
  import opened Basics
  import opened Tables
  import opened Transactions
  import opened Runs
  import opened Validity
  import opened Lifecycle
  import opened Greedy

  // ---- payment deliveries ----

  /** One webhook call or browser callback after another, all for the same payment. */
  function Deliveries(reference: string, outcomes: seq<Option<Verification>>): (r: seq<Step>)
    ensures |r| == |outcomes|
    ensures forall i :: 0 <= i < |outcomes| ==> r[i] == Step.Deliver(reference, outcomes[i])
  {
    seq(|outcomes|, i requires 0 <= i < |outcomes| => Step.Deliver(reference, outcomes[i]))
  }

  /** The gateway was asked and reports success, exactly the amount, and naira or no currency. */
  predicate Settles(outcome: Option<Verification>, amount: int) {
    && outcome.Some? && outcome.value.status == "success" && outcome.value.amount == amount
    && outcome.value.currency in {"", "NGN"}
  }

  /** One delivery pays a pending ticket exactly when it reports success, the full amount and the right currency. */
  lemma {:induction false} DeliverPaysExactly(db: Db, t: nat, v: Verification)
    requires Valid(db) && t < |db.tickets| && db.tickets[t].status == Pending
    ensures var row := db.tickets[t]; var after := Transactions.Deliver(db, row.reference, Some(v));
      && t < |after.tickets|
      && (after.tickets[t].status == Paid
          <==> v.status == "success" && v.amount == row.amount && (v.currency == "" || v.currency == "NGN"))
      && (after.tickets[t].status != Paid ==> after == db)
    ensures Transactions.Deliver(db, db.tickets[t].reference, None) == db
  {
    FindReferenceFirst(db.tickets, t);
    if Settles(Some(v), db.tickets[t].amount) {
      FirstConfirmation(db, t, Some(v));
    }
  }

  /** Position of the first delivery that confirms the payment, or their number. */
  function FirstSettling(outcomes: seq<Option<Verification>>, amount: int): (n: nat)
    ensures n <= |outcomes|
    ensures n < |outcomes| ==> Settles(outcomes[n], amount)
    ensures forall i :: 0 <= i < n ==> !Settles(outcomes[i], amount)
  {
    if outcomes == [] then 0
    else
      var n := FirstSettling(outcomes[..|outcomes| - 1], amount);
      if n < |outcomes| - 1 || Settles(outcomes[|outcomes| - 1], amount) then n else |outcomes|
  }

  /** The tickets after ticket t was paid at the given time and given the least busy pump of the state before. */
  function PaidAndServed(db: Db, t: nat, at: nat): seq<Ticket>
    requires t < |db.tickets|
  {
    var pumps := EnsureDefault(db.pumps);
    db.tickets[t := db.tickets[t].(status := Paid, paidAt := Some(at), pump := LeastBusy(db.tickets, pumps, |pumps|))]
  }

  /** The choice of pump depends on the loads alone. */
  lemma {:induction false} SameLoadsSameChoice(ts: seq<Ticket>, us: seq<Ticket>, pumps: seq<Pump>, n: nat)
    requires Unchanged(ts, us) && n <= |pumps|
    ensures LeastBusy(us, pumps, n) == LeastBusy(ts, pumps, n)
  {
    if n > 0 {
      SameLoadsSameChoice(ts, us, pumps, n - 1);
    }
  }

  /** The first confirmation pays the ticket and serves it. */
  lemma FirstConfirmation(db: Db, t: nat, outcome: Option<Verification>)
    requires Valid(db) && t < |db.tickets| && db.tickets[t].status == Pending && Settles(outcome, db.tickets[t].amount)
    requires FindReference(db.tickets, db.tickets[t].reference) == t
    ensures Transactions.Deliver(db, db.tickets[t].reference, outcome)
         == db.(tickets := PaidAndServed(db, t, db.clock), pumps := EnsureDefault(db.pumps))
  {
    var row := db.tickets[t];
    assert RowOk(row, |db.shifts|, |db.pumps|, db.clock);
    var paid := row.(status := Paid, paidAt := Some(db.clock));
    IdleRow(db.tickets, t, paid);
    SameLoadsSameChoice(db.tickets, db.tickets[t := paid], EnsureDefault(db.pumps), |EnsureDefault(db.pumps)|);
    AssignmentRow(db.(tickets := db.tickets[t := paid]), t);
  }

  /** Later deliveries change nothing: the ticket is paid, and the pump, or the lack of one, stands. */
  lemma LaterDelivery(db: Db, after: Db, t: nat, at: nat, outcome: Option<Verification>)
    requires Valid(db) && t < |db.tickets| && db.tickets[t].status == Pending
    requires after.tickets == PaidAndServed(db, t, at) && after.pumps == EnsureDefault(db.pumps)
    requires FindReference(after.tickets, db.tickets[t].reference) == t
    ensures Transactions.Deliver(after, db.tickets[t].reference, outcome) == after
  {
    assert RowOk(db.tickets[t], |db.shifts|, |db.pumps|, db.clock);
    if Settles(outcome, db.tickets[t].amount) {
      AssignmentRow(after, t);
      if after.tickets[t].pump.None? {
        IdleRow(db.tickets, t, after.tickets[t]);
        SameLoadsSameChoice(db.tickets, after.tickets, after.pumps, |after.pumps|);
      }
      assert after.tickets[t := after.tickets[t]] == after.tickets;
    }
  }

  lemma {:induction false} FindReferenceFirst(ts: seq<Ticket>, t: nat)
    requires t < |ts| && ReferencesOk(ts)
    ensures FindReference(ts, ts[t].reference) == t
  {
    var r := FindReference(ts, ts[t].reference);
    assert r <= t;
  }

  /**
   The plant after m deliveries for a pending ticket of which the n-th is the first to confirm; none
   does if n == m.
   */
  ghost function Settled(db: Db, t: nat, n: nat, m: nat): Db
    requires t < |db.tickets|
  {
    var later := db.(clock := db.clock + m);
    if n >= m then later
    else later.(tickets := PaidAndServed(db, t, db.clock + n), pumps := EnsureDefault(db.pumps))
  }

  lemma {:induction false} SettlingStep(db: Db, t: nat, n: nat, m: nat, outcome: Option<Verification>)
    requires Valid(db) && t < |db.tickets| && db.tickets[t].status == Pending && n <= m
    requires Valid(Settled(db, t, n, m))
    ensures Apply(Settled(db, t, n, m), Step.Deliver(db.tickets[t].reference, outcome))
         == Settled(db, t, if n < m || Settles(outcome, db.tickets[t].amount) then n else n + 1, m + 1)
  {
    hide MarkPaid, AssignLeastBusy, LeastBusy, RowsOk, ShiftsOk, LedgerOk;
    var mid := Settled(db, t, n, m);
    FindReferenceFirst(mid.tickets, t);
    if n < m {
      LaterDelivery(db, mid, t, db.clock + n, outcome);
    } else if Settles(outcome, db.tickets[t].amount) {
      FirstConfirmation(mid, t, outcome);
    }
  }

  /** Only the first confirming delivery has an effect, and it is the same whenever it comes but for its time. */
  lemma {:induction false} DeliveriesSettle(db: Db, t: nat, outcomes: seq<Option<Verification>>)
    requires Valid(db) && t < |db.tickets| && db.tickets[t].status == Pending
    ensures Run(db, Deliveries(db.tickets[t].reference, outcomes))
         == Settled(db, t, FirstSettling(outcomes, db.tickets[t].amount), |outcomes|)
  {
    hide Apply, Valid, Settled, FirstSettling, Settles;
    if outcomes == [] {
      NothingSettled(db, t);
    } else {
      var reference, amount := db.tickets[t].reference, db.tickets[t].amount;
      var init, last := outcomes[..|outcomes| - 1], outcomes[|outcomes| - 1];
      var steps := Deliveries(reference, outcomes);
      DeliveriesSettle(db, t, init);
      assert steps[..|init|] == Deliveries(reference, init);
      assert Run(db, steps) == Apply(Run(db, Deliveries(reference, init)), Step.Deliver(reference, last));
      RunKeeps(db, steps[..|init|]);
      SettlingStep(db, t, FirstSettling(init, amount), |init|, last);
      NextSettling(outcomes, amount);
    }
  }

  /** So after any deliveries the ticket is paid exactly when one of them was such, and untouched otherwise. */
  lemma {:induction false} PaidExactly(db: Db, t: nat, outcomes: seq<Option<Verification>>)
    requires Valid(db) && t < |db.tickets| && db.tickets[t].status == Pending
    ensures var row := db.tickets[t]; var after := Run(db, Deliveries(row.reference, outcomes));
      && t < |after.tickets|
      && (after.tickets[t].status == Paid
          <==> exists i :: 0 <= i < |outcomes| && outcomes[i].Some? && outcomes[i].value.status == "success"
                           && outcomes[i].value.amount == row.amount
                           && (outcomes[i].value.currency == "" || outcomes[i].value.currency == "NGN"))
      && (after.tickets[t].status != Paid ==> after.tickets[t] == row)
  {
    hide Run, Valid;
    DeliveriesSettle(db, t, outcomes);
    var n := FirstSettling(outcomes, db.tickets[t].amount);
    assert n < |outcomes| ==> Settles(outcomes[n], db.tickets[t].amount);
  }

  lemma NothingSettled(db: Db, t: nat)
    requires t < |db.tickets|
    ensures Settled(db, t, FirstSettling([], db.tickets[t].amount), 0) == db
  {
  }

  lemma NextSettling(outcomes: seq<Option<Verification>>, amount: int)
    requires outcomes != []
    ensures var n := FirstSettling(outcomes[..|outcomes| - 1], amount);
      FirstSettling(outcomes, amount) ==
        if n < |outcomes| - 1 || Settles(outcomes[|outcomes| - 1], amount) then n else n + 1
  {
  }

  /**
   Order and number of the deliveries do not matter: two sequences that both contain a confirmation,
   or both lack one, leave the same tickets, payment times aside, and the same pumps.
   */
  lemma {:induction false} DeliveriesConfluent(db: Db, t: nat, xs: seq<Option<Verification>>,
                                                ys: seq<Option<Verification>>)
    requires Valid(db) && t < |db.tickets| && db.tickets[t].status == Pending
    requires (exists i :: 0 <= i < |xs| && Settles(xs[i], db.tickets[t].amount))
        <==> (exists i :: 0 <= i < |ys| && Settles(ys[i], db.tickets[t].amount))
    ensures var reference := db.tickets[t].reference;
      var a, b := Run(db, Deliveries(reference, xs)), Run(db, Deliveries(reference, ys));
      && a.pumps == b.pumps && |a.tickets| == |b.tickets| == |db.tickets|
      && (forall i :: 0 <= i < |db.tickets| && i != t ==> a.tickets[i] == b.tickets[i] == db.tickets[i])
      && b.tickets[t] == a.tickets[t].(paidAt := b.tickets[t].paidAt)
  {
    hide Run, Valid;
    DeliveriesSettle(db, t, xs);
    DeliveriesSettle(db, t, ys);
  }

  /** Once paid, a ticket keeps its payment time and its pump through every later transaction of any kind. */
  lemma {:induction false} PaidOnce(db: Db, steps: seq<Step>, t: nat)
    requires Valid(db) && t < |db.tickets| && db.tickets[t].status != Pending
    ensures t < |Run(db, steps).tickets|
    ensures Run(db, steps).tickets[t].paidAt == db.tickets[t].paidAt
    ensures db.tickets[t].pump.Some? ==> Run(db, steps).tickets[t].pump == db.tickets[t].pump
  {
    RunAdvances(db, steps);
    assert Later(db.tickets[t], Run(db, steps).tickets[t]);
  }

  // ---- closing a queue ----

  /** Closes the listed tickets one after another; any failure fails the whole. */
  function CloseEach(db: Db, listed: seq<nat>, shift: nat, actor: nat, note: Option<string>): Result<Db, ()> {
    if listed == [] then Ok(db)
    else
      var init := CloseEach(db, listed[..|listed| - 1], shift, actor, note);
      if init.Err? then init else Transactions.CloseFilled(init.value, listed[|listed| - 1], shift, actor, note)
  }

  predicate Distinct(listed: seq<nat>) {
    forall i, j :: 0 <= i < j < |listed| ==> listed[i] != listed[j]
  }

  /** After closing a duplicate-free list of dispensing tickets exactly their rows are closed. */
  lemma {:induction false} CloseEachRows(db: Db, listed: seq<nat>, shift: nat, actor: nat, note: Option<string>)
    requires Distinct(listed) && shift < |db.shifts|
    requires forall i :: 0 <= i < |listed| ==> listed[i] < |db.tickets| && db.tickets[listed[i]].status == Dispensing
    ensures var r := CloseEach(db, listed, shift, actor, note);
      && r.Ok? && r.value == db.(tickets := r.value.tickets) && |r.value.tickets| == |db.tickets|
      && forall i: nat :: i < |db.tickets| ==>
           r.value.tickets[i] ==
             if i in listed then ClosedRow(db.tickets[i], db.clock, shift, actor, note) else db.tickets[i]
  {
    if listed != [] {
      var init, last := listed[..|listed| - 1], listed[|listed| - 1];
      hide ClosedRow;
      CloseEachRows(db, init, shift, actor, note);
      assert last !in init;
      assert forall i: nat :: i in listed <==> i in init || i == last;
    }
  }

  ghost function QueueSet(ts: seq<Ticket>, n: nat, pump: nat): set<nat>
    requires n <= |ts|
  {
    set i: nat | i < n && Queued(ts[i], pump)
  }

  lemma {:induction false} QueueSetSize(ts: seq<Ticket>, n: nat, pump: nat)
    requires n <= |ts|
    ensures |QueueSet(ts, n, pump)| == QueueLength(ts, n, pump)
  {
    if n > 0 {
      QueueSetSize(ts, n - 1, pump);
      assert QueueSet(ts, n, pump) == QueueSet(ts, n - 1, pump) + (if Queued(ts[n - 1], pump) then {n - 1} else {});
    }
  }

  ghost function Members(listed: seq<nat>): set<nat> {
    set i | i in listed
  }

  lemma {:induction false} DistinctSize(listed: seq<nat>)
    requires Distinct(listed)
    ensures |Members(listed)| == |listed|
  {
    if listed != [] {
      var init, last := listed[..|listed| - 1], listed[|listed| - 1];
      DistinctSize(init);
      assert last !in init;
      assert Members(listed) == Members(init) + {last};
    }
  }

  /** The listing names each dispensing ticket of the pump once, in any order. */
  ghost predicate Lists(ts: seq<Ticket>, listed: seq<nat>, pump: nat) {
    Distinct(listed) && forall i: nat :: i in listed <==> i < |ts| && Queued(ts[i], pump)
  }

  lemma ListingSize(ts: seq<Ticket>, listed: seq<nat>, pump: nat)
    requires Lists(ts, listed, pump)
    ensures QueueLength(ts, |ts|, pump) == |listed|
  {
    QueueSetSize(ts, |ts|, pump);
    DistinctSize(listed);
    assert QueueSet(ts, |ts|, pump) == Members(listed);
  }

  /** The bulk close succeeds exactly when the single closes do, with the same outcome, and counts them. */
  lemma BulkCloseIsEachClose(db: Db, listed: seq<nat>, pump: nat, shift: nat, actor: nat, note: Option<string>)
    requires Lists(db.tickets, listed, pump)
    ensures var bulk := Transactions.BulkCloseFilled(db, pump, shift, actor, note);
      var each := CloseEach(db, listed, shift, actor, note);
      if each.Ok? then bulk == Ok((each.value, |listed|)) else bulk.Err?
  {
    ListingSize(db.tickets, listed, pump);
    var rows := BulkClosedRows(db.tickets, |db.tickets|, pump, db.clock, shift, actor, note);
    if shift < |db.shifts| {
      forall i | 0 <= i < |listed| ensures listed[i] < |db.tickets| && db.tickets[listed[i]].status == Dispensing {
        assert listed[i] in listed;
      }
      CloseEachRows(db, listed, shift, actor, note);
      assert rows == CloseEach(db, listed, shift, actor, note).value.tickets;
    } else if listed == [] {
      QueueEmpty(db.tickets, |db.tickets|, pump);
      assert rows == db.tickets;
    } else {
      NoShiftNoClose(db, listed, shift, actor, note);
    }
  }

  lemma {:induction false} NoShiftNoClose(db: Db, listed: seq<nat>, shift: nat, actor: nat, note: Option<string>)
    requires listed != [] && shift >= |db.shifts|
    ensures CloseEach(db, listed, shift, actor, note).Err?
  {
    if |listed| > 1 {
      NoShiftNoClose(db, listed[..|listed| - 1], shift, actor, note);
    }
  }
}
