/** Conservation between tickets, shifts and cash, and the shape of every shift's ledger. */
module Ledger {
  import opened Basics
  import opened Tables
  import opened Transactions
  import opened Runs
  import opened Validity
  import opened Lifecycle

  // ---- shift totals, as the summary computes them ----

  predicate FilledIn(t: Ticket, s: nat) {
    t.filledShift == Some(s) && t.status == Filled
  }

  function Fills(ts: seq<Ticket>, s: nat): nat {
    if ts == [] then 0 else Fills(ts[..|ts| - 1], s) + (if FilledIn(ts[|ts| - 1], s) then 1 else 0)
  }

  /** The tickets a shift has filled. */
  ghost function FilledBy(ts: seq<Ticket>, s: nat): set<nat> {
    set i: nat | i < |ts| && ts[i].status == Filled && ts[i].filledShift == Some(s)
  }

  lemma {:induction false} FillsCount(ts: seq<Ticket>, s: nat)
    ensures Fills(ts, s) == |FilledBy(ts, s)|
  {
    if ts != [] {
      var n := |ts| - 1;
      FillsCount(ts[..n], s);
      var added: set<nat> := if FilledIn(ts[n], s) then {n} else {};
      assert FilledBy(ts, s) == FilledBy(ts[..n], s) + added;
    }
  }

  function Grams(ts: seq<Ticket>, s: nat): int {
    if ts == [] then 0 else Grams(ts[..|ts| - 1], s) + (if FilledIn(ts[|ts| - 1], s) then ts[|ts| - 1].grams else 0)
  }

  function CashHeld(ms: seq<Movement>, s: nat): int {
    if ms == [] then 0
    else CashHeld(ms[..|ms| - 1], s)
         + (if ms[|ms| - 1].shift == s && ms[|ms| - 1].kind == Sale then ms[|ms| - 1].amount else 0)
  }

  /** The money taken for the cash tickets sold in a shift, voided or not. */
  function CashSold(ts: seq<Ticket>, s: nat): int {
    if ts == [] then 0
    else CashSold(ts[..|ts| - 1], s)
         + (if ts[|ts| - 1].channel == Cash && ts[|ts| - 1].shift == Some(s) then ts[|ts| - 1].amount else 0)
  }

  function Sum(xs: seq<int>): int {
    if xs == [] then 0 else Sum(xs[..|xs| - 1]) + xs[|xs| - 1]
  }

  lemma {:induction false} SumSnoc(xs: seq<int>, x: int)
    ensures Sum(xs + [x]) == Sum(xs) + x
  {
    assert (xs + [x])[..|xs|] == xs;
  }

  lemma {:induction false} CashHeldSum(ms: seq<Movement>, s: nat)
    ensures CashHeld(ms, s) == Sum(Amounts(ms, s, Sale))
  {
    if ms != [] {
      var init, m := ms[..|ms| - 1], ms[|ms| - 1];
      CashHeldSum(init, s);
      SumSnoc(Amounts(init, s, Sale), m.amount);
      assert Amounts(init, s, Sale) + [] == Amounts(init, s, Sale);
    }
  }

  lemma {:induction false} CashSoldSum(ts: seq<Ticket>, s: nat)
    ensures CashSold(ts, s) == Sum(CashAmounts(ts, s))
  {
    if ts != [] {
      var init, t := ts[..|ts| - 1], ts[|ts| - 1];
      CashSoldSum(init, s);
      SumSnoc(CashAmounts(init, s), t.amount);
      assert CashAmounts(init, s) + [] == CashAmounts(init, s);
    }
  }

  /** A shift's cash held is the money of the cash tickets sold in it. */
  lemma CashConserved(db: Db, s: nat)
    requires Valid(db) && s < |db.shifts|
    ensures CashHeld(db.movements, s) == CashSold(db.tickets, s)
  {
    assert ShiftLedgerOk(db, s);
    CashHeldSum(db.movements, s);
    CashSoldSum(db.tickets, s);
  }

  // ---- fills over all shifts ----

  function FilledCount(ts: seq<Ticket>): nat {
    if ts == [] then 0 else FilledCount(ts[..|ts| - 1]) + (if ts[|ts| - 1].status == Filled then 1 else 0)
  }

  function FilledGrams(ts: seq<Ticket>): int {
    if ts == [] then 0
    else FilledGrams(ts[..|ts| - 1]) + (if ts[|ts| - 1].status == Filled then ts[|ts| - 1].grams else 0)
  }

  /** Fills summed over the first n shifts. */
  function FillsOver(ts: seq<Ticket>, n: nat): nat {
    if n == 0 then 0 else FillsOver(ts, n - 1) + Fills(ts, n - 1)
  }

  function GramsOver(ts: seq<Ticket>, n: nat): int {
    if n == 0 then 0 else GramsOver(ts, n - 1) + Grams(ts, n - 1)
  }

  lemma {:induction false} NoFills(n: nat)
    ensures FillsOver([], n) == 0 && GramsOver([], n) == 0
  {
    if n > 0 {
      NoFills(n - 1);
    }
  }

  /** One more ticket adds to exactly one shift's totals when it is filled, and to none otherwise. */
  lemma {:induction false} TicketCountedOnce(ts: seq<Ticket>, n: nat)
    requires ts != []
    ensures var init, t := ts[..|ts| - 1], ts[|ts| - 1];
      var counted := t.status == Filled && t.filledShift.Some? && t.filledShift.value < n;
      && FillsOver(ts, n) == FillsOver(init, n) + (if counted then 1 else 0)
      && GramsOver(ts, n) == GramsOver(init, n) + (if counted then t.grams else 0)
  {
    if n > 0 {
      TicketCountedOnce(ts, n - 1);
    }
  }

  lemma {:induction false} FillsPartition(ts: seq<Ticket>, n: nat)
    requires forall i :: 0 <= i < |ts| && ts[i].status == Filled ==>
      ts[i].filledShift.Some? && ts[i].filledShift.value < n
    ensures FillsOver(ts, n) == FilledCount(ts) && GramsOver(ts, n) == FilledGrams(ts)
  {
    if ts == [] {
      NoFills(n);
    } else {
      var init := ts[..|ts| - 1];
      assert forall i :: 0 <= i < |init| ==> init[i] == ts[i];
      FillsPartition(init, n);
      TicketCountedOnce(ts, n);
    }
  }

  /** Fills and grams summed over all shifts are those of the filled tickets. */
  lemma FillsConserved(db: Db)
    requires Valid(db)
    ensures FillsOver(db.tickets, |db.shifts|) == FilledCount(db.tickets)
    ensures GramsOver(db.tickets, |db.shifts|) == FilledGrams(db.tickets)
  {
    forall i | 0 <= i < |db.tickets| && db.tickets[i].status == Filled
      ensures db.tickets[i].filledShift.Some? && db.tickets[i].filledShift.value < |db.shifts|
    {
      assert RowOk(db.tickets[i], |db.shifts|, |db.pumps|, db.clock);
    }
    FillsPartition(db.tickets, |db.shifts|);
  }

  /** Both balances hold after every run from an empty plant. */
  lemma ReachableBalances(pumps: seq<Pump>, steps: seq<Step>, s: nat)
    requires s < |Run(Initial(pumps), steps).shifts|
    ensures var db := Run(Initial(pumps), steps);
      && CashHeld(db.movements, s) == CashSold(db.tickets, s)
      && FillsOver(db.tickets, |db.shifts|) == FilledCount(db.tickets)
      && GramsOver(db.tickets, |db.shifts|) == FilledGrams(db.tickets)
  {
    InitialValid(pumps);
    RunKeeps(Initial(pumps), steps);
    CashConserved(Run(Initial(pumps), steps), s);
    FillsConserved(Run(Initial(pumps), steps));
  }

  lemma {:induction false} FillsGrowRows(ts: seq<Ticket>, us: seq<Ticket>, s: nat)
    requires |ts| <= |us| && forall i :: 0 <= i < |ts| ==> Later(ts[i], us[i])
    requires forall i :: 0 <= i < |ts| ==> Evident(ts[i]) && Evident(us[i])
    ensures Fills(ts, s) <= Fills(us, s)
    decreases |us|
  {
    if |ts| < |us| {
      FillsGrowRows(ts, us[..|us| - 1], s);
    } else if ts != [] {
      var i := |ts| - 1;
      assert Later(ts[i], us[i]) && Evident(ts[i]) && Evident(us[i]);
      FillsGrowRows(ts[..i], us[..i], s);
    }
  }

  /** A fill counted for a shift is counted for it forever. */
  lemma {:induction false} FillsForever(db: Db, steps: seq<Step>, s: nat)
    requires Valid(db)
    ensures Fills(db.tickets, s) <= Fills(Run(db, steps).tickets, s)
    ensures |db.tickets| <= |Run(db, steps).tickets|
    ensures forall i :: 0 <= i < |db.tickets| && FilledIn(db.tickets[i], s) ==> FilledIn(Run(db, steps).tickets[i], s)
  {
    RunAdvances(db, steps);
    RunKeeps(db, steps);
    var after := Run(db, steps);
    forall i | 0 <= i < |db.tickets| ensures Evident(db.tickets[i]) && Evident(after.tickets[i]) {
      assert RowOk(db.tickets[i], |db.shifts|, |db.pumps|, db.clock);
      assert RowOk(after.tickets[i], |after.shifts|, |after.pumps|, after.clock);
    }
    FillsGrowRows(db.tickets, after.tickets, s);
    forall i | 0 <= i < |db.tickets| && FilledIn(db.tickets[i], s) ensures FilledIn(after.tickets[i], s) {
      assert Later(db.tickets[i], after.tickets[i]);
    }
  }

  // ---- shifts ----

  /** In every reachable state two open shifts belong to different users and stand at different pumps. */
  lemma {:induction false} ReachableOpenShifts(pumps: seq<Pump>, steps: seq<Step>, i: nat, j: nat)
    requires i < j < |Run(Initial(pumps), steps).shifts|
    requires var ss := Run(Initial(pumps), steps).shifts; IsOpen(ss[i]) && IsOpen(ss[j])
    ensures var ss := Run(Initial(pumps), steps).shifts;
      ss[i].user != ss[j].user && (ss[i].pump.Some? ==> ss[i].pump != ss[j].pump)
  {
    InitialValid(pumps);
    RunKeeps(Initial(pumps), steps);
  }

  lemma ShiftMovements(db: Db, s: nat)
    requires Valid(db) && s < |db.shifts|
    ensures Amounts(db.movements, s, OpeningFloat) == [db.shifts[s].openingCash]
    ensures IsOpen(db.shifts[s]) <==> db.shifts[s].closingCash.None?
    ensures Amounts(db.movements, s, Closing) == if IsOpen(db.shifts[s]) then [] else [db.shifts[s].closingCash.value]
  {
    assert ShiftLedgerOk(db, s);
  }

  /**
   In every reachable state a shift has one opening float, equal to its opening cash, and one
   closing count, equal to its closing cash, exactly when it is closed.
   */
  lemma {:induction false} ReachableShift(pumps: seq<Pump>, steps: seq<Step>, s: nat)
    requires s < |Run(Initial(pumps), steps).shifts|
    ensures var db := Run(Initial(pumps), steps); var row := db.shifts[s];
      && Amounts(db.movements, s, OpeningFloat) == [row.openingCash]
      && (IsOpen(row) <==> row.closingCash.None?)
      && Amounts(db.movements, s, Closing) == if IsOpen(row) then [] else [row.closingCash.value]
  {
    InitialValid(pumps);
    RunKeeps(Initial(pumps), steps);
    ShiftMovements(Run(Initial(pumps), steps), s);
  }
}
