/** What the invariant gives: the life of a ticket over whole runs, and exact redemption. */
module Lifecycle {
  import opened Basics
  import opened Tables
  import opened Transactions
  import opened Runs
  import opened Validity

  // ---- one ticket over a run ----

  /** Any number of moves. */
  predicate Reaches(a: Status, b: Status) {
    a == b
    || (a == Pending && (b == Paid || b == Dispensing || b == Filled || b == Voided))
    || (a == Paid && (b == Dispensing || b == Filled || b == Voided))
    || (a == Dispensing && b == Filled)
  }

  /** Row u is row t any number of transactions later: nothing recorded is ever changed. */
  predicate Later(t: Ticket, u: Ticket) {
    && SameOrder(t, u) && SameEvidence(t, u) && Reaches(t.status, u.status)
    && (t.status != Pending ==> t.paidAt == u.paidAt)
  }

  lemma {:induction false} RunAdvances(db: Db, steps: seq<Step>)
    requires Valid(db)
    ensures |db.tickets| <= |Run(db, steps).tickets|
    ensures forall i :: 0 <= i < |db.tickets| ==> Later(db.tickets[i], Run(db, steps).tickets[i])
  {
    if steps != [] {
      var mid := Run(db, steps[..|steps| - 1]);
      RunKeeps(db, steps[..|steps| - 1]);
      RunAdvances(db, steps[..|steps| - 1]);
      StepKeeps(mid, steps[|steps| - 1]);
      forall i | 0 <= i < |db.tickets| ensures Later(db.tickets[i], Run(db, steps).tickets[i]) {
        assert Later(db.tickets[i], mid.tickets[i]) && Advances(mid.tickets[i], Run(db, steps).tickets[i]);
      }
    }
  }

  /** How often the status of ticket i changes during a run. */
  ghost function StatusChanges(db: Db, steps: seq<Step>, i: nat): nat
    requires Valid(db) && i < |db.tickets|
  {
    if steps == [] then 0
    else
      var init := steps[..|steps| - 1];
      RunAdvances(db, init);
      RunAdvances(db, steps);
      StatusChanges(db, init, i)
      + (if Run(db, init).tickets[i].status == Run(db, steps).tickets[i].status then 0 else 1)
  }

  /** Every change of status uses up rank, so there are at most three. */
  lemma {:induction false} StatusChangesBounded(db: Db, steps: seq<Step>, i: nat)
    requires Valid(db) && i < |db.tickets|
    ensures i < |Run(db, steps).tickets|
    ensures StatusChanges(db, steps, i) + Rank(Run(db, steps).tickets[i].status) <= Rank(db.tickets[i].status) <= 3
  {
    RunAdvances(db, steps);
    if steps != [] {
      var init := steps[..|steps| - 1];
      StatusChangesBounded(db, init, i);
      RunKeeps(db, init);
      StepKeeps(Run(db, init), steps[|steps| - 1]);
      assert Advances(Run(db, init).tickets[i], Run(db, steps).tickets[i]);
    }
  }

  /** In every reachable state each status has its evidence: who paid, where it was filled, what was confirmed. */
  lemma {:induction false} ReachableEvidence(pumps: seq<Pump>, steps: seq<Step>, i: nat)
    requires i < |Run(Initial(pumps), steps).tickets|
    ensures var db := Run(Initial(pumps), steps); var t := db.tickets[i];
      && (t.status in {Paid, Dispensing, Filled} ==> t.paidAt.Some? && t.createdAt <= t.paidAt.value)
      && (t.status == Filled ==> t.filledAt.Some? && t.paidAt.value <= t.filledAt.value
                                 && t.filledShift.Some? && t.filledShift.value < |db.shifts|
                                 && t.netGrams == Some(t.grams))
      && (t.confirmedAt.Some? ==> t.status == Filled && t.filledAt.value <= t.confirmedAt.value)
      && (t.status == Voided ==> t.voidedAt.Some? && t.filledAt.None?)
  {
    InitialValid(pumps);
    RunKeeps(Initial(pumps), steps);
    var db := Run(Initial(pumps), steps);
    assert RowOk(db.tickets[i], |db.shifts|, |db.pumps|, db.clock);
  }

  /** A voided ticket stays voided, whatever payments are delivered for it later. */
  lemma {:induction false} VoidedStaysVoided(db: Db, steps: seq<Step>, i: nat)
    requires Valid(db) && i < |db.tickets| && db.tickets[i].status == Voided
    ensures i < |Run(db, steps).tickets|
    ensures var u := Run(db, steps).tickets[i]; u.status == Voided && u.paidAt == db.tickets[i].paidAt
  {
    RunAdvances(db, steps);
    assert Later(db.tickets[i], Run(db, steps).tickets[i]);
  }

  /** No transaction ever makes a ticket live again that no longer was, so its code stays free of it. */
  lemma {:induction false} NeverLiveAgain(db: Db, steps: seq<Step>, i: nat)
    requires Valid(db) && i < |db.tickets| && db.tickets[i].status !in {Pending, Paid, Dispensing}
    ensures i < |Run(db, steps).tickets| && Run(db, steps).tickets[i].status !in {Pending, Paid, Dispensing}
  {
    RunAdvances(db, steps);
    assert Later(db.tickets[i], Run(db, steps).tickets[i]);
  }

  // ---- redeeming ----

  /** With creation times in order the newest holder of a code is the last row with it. */
  lemma {:induction false} NewestIsLast(ts: seq<Ticket>, n: nat, code: string)
    requires n <= |ts| && CreatedInOrder(ts)
    ensures var r := Newest(ts, n, code);
      if r.None? then forall i :: 0 <= i < n ==> ts[i].code != code
      else forall i :: r.value < i < n ==> ts[i].code != code
  {
    if n > 0 {
      NewestIsLast(ts, n - 1, code);
    }
  }

  /** Row t is the last one with its code. */
  ghost predicate IsNewest(ts: seq<Ticket>, t: nat, code: string) {
    t < |ts| && ts[t].code == code && forall i :: t < i < |ts| ==> ts[i].code != code
  }

  lemma NewestFound(db: Db, code: string)
    requires Valid(db)
    ensures var r := Newest(db.tickets, |db.tickets|, code);
      if r.None? then forall i :: 0 <= i < |db.tickets| ==> db.tickets[i].code != code
      else IsNewest(db.tickets, r.value, code)
  {
    NewestIsLast(db.tickets, |db.tickets|, code);
  }

  /** A live ticket is always the newest holder of its code. */
  lemma LiveIsNewest(db: Db, t: nat)
    requires Valid(db) && t < |db.tickets| && db.tickets[t].status in {Pending, Paid, Dispensing}
    ensures IsNewest(db.tickets, t, db.tickets[t].code)
    ensures Newest(db.tickets, |db.tickets|, db.tickets[t].code) == Some(t)
  {
    var code := db.tickets[t].code;
    NewestFound(db, code);
    assert forall i :: t < i < |db.tickets| ==> db.tickets[i].code != code;
  }

  /** Redeeming a code succeeds with ticket t if and only if t is paid and carries it. */
  lemma RedeemExact(db: Db, code: string, t: nat)
    requires Valid(db)
    ensures Redeem(db.tickets, code) == Ok(t) <==>
            t < |db.tickets| && db.tickets[t].code == code && db.tickets[t].status == Paid
  {
    if t < |db.tickets| && db.tickets[t].code == code && db.tickets[t].status == Paid {
      LiveIsNewest(db, t);
    }
  }

  lemma NewestUnique(ts: seq<Ticket>, t: nat, u: nat, code: string)
    requires IsNewest(ts, t, code) && IsNewest(ts, u, code)
    ensures t == u
  {
  }

  lemma {:induction false} NoHolder(ts: seq<Ticket>, n: nat, code: string)
    requires n <= |ts|
    ensures Newest(ts, n, code).None? <==> forall i :: 0 <= i < n ==> ts[i].code != code
  {
    if n > 0 {
      NoHolder(ts, n - 1, code);
    }
  }

  /** A code is unknown exactly when no ticket ever carried it. */
  lemma RedeemUnknown(ts: seq<Ticket>, code: string)
    ensures Redeem(ts, code) == Err(CodeNotFound) <==> forall i :: 0 <= i < |ts| ==> ts[i].code != code
  {
    NoHolder(ts, |ts|, code);
  }

  /** Whatever is redeemed is paid and carries the code. */
  lemma RedeemGives(ts: seq<Ticket>, code: string)
    ensures var r := Redeem(ts, code); r.Ok? ==> ts[r.value].code == code && ts[r.value].status == Paid
  {
  }

  /** A code redeems if and only if some paid ticket carries it. */
  lemma {:induction false} RedeemSome(db: Db, code: string)
    requires Valid(db)
    ensures Redeem(db.tickets, code).Ok? <==>
            exists t :: 0 <= t < |db.tickets| && db.tickets[t].code == code && db.tickets[t].status == Paid
  {
    hide Valid, Redeem;
    forall t: nat ensures Redeem(db.tickets, code) == Ok(t) <==>
      t < |db.tickets| && db.tickets[t].code == code && db.tickets[t].status == Paid
    {
      RedeemExact(db, code, t);
    }
  }

  /** Otherwise the answer tells what became of the last ticket that got the code. */
  lemma RedeemNewest(db: Db, code: string, t: nat)
    requires Valid(db) && IsNewest(db.tickets, t, code)
    ensures var status, r := db.tickets[t].status, Redeem(db.tickets, code);
      && (status == Paid <==> r == Ok(t))
      && (status == Dispensing || status == Filled <==> r == Err(AlreadyRedeemed))
      && (status == Pending || status == Voided <==> r == Err(NotPayable))
  {
    NewestFound(db, code);
    var newest := Newest(db.tickets, |db.tickets|, code);
    NewestUnique(db.tickets, newest.value, t, code);
    assert RowOk(db.tickets[t], |db.shifts|, |db.pumps|, db.clock);
  }

  /**
   At most one pending, paid or dispensing ticket carries a code, and redemption is exact, in every
   reachable state.
   */
  lemma {:induction false} ReachableRedeem(pumps: seq<Pump>, steps: seq<Step>, code: string, t: nat)
    ensures var ts := Run(Initial(pumps), steps).tickets;
      && (Redeem(ts, code) == Ok(t) <==> t < |ts| && ts[t].code == code && ts[t].status == Paid)
      && (forall i, j :: 0 <= i < j < |ts| && ts[i].code == ts[j].code ==>
            !(ts[i].status in {Pending, Paid, Dispensing} && ts[j].status in {Pending, Paid, Dispensing}))
  {
    InitialValid(pumps);
    RunKeeps(Initial(pumps), steps);
    RedeemExact(Run(Initial(pumps), steps), code, t);
  }
}
