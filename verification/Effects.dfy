/** How the transactions answer one another: what a call enables, refuses, undoes or leaves alone after another. */
module Effects {
  import opened Basics
  import opened Tables
  import opened Transactions
  import Runs
  import opened Validity
  import opened Greedy
  import Price
  import Settlement

  // ---- purchases ----

  /**
   The attempts a purchase really has: one when a violation ends the transaction, else six, or as many
   as codes come.
   */
  function Attempts(draw: Draw): nat {
    var most := if draw.poisons then 1 else 6;
    if |draw.codes| < most then |draw.codes| else most
  }

  /** A pending, paid or dispensing ticket has the code. */
  predicate OpenHolder(ts: seq<Ticket>, code: string) {
    exists i :: 0 <= i < |ts| && ts[i].code == code && ts[i].status in {Pending, Paid, Dispensing}
  }

  /** From attempt n on, the purchase takes the first free code it draws. */
  lemma {:induction false} FirstFreeCode(db: Db, o: Order, draw: Draw, n: nat)
    requires o.grams > 0 && !ReferenceTaken(db.tickets, o.reference) && (o.shift.Some? ==> o.shift.value < |db.shifts|)
    requires draw.poisons ==> n == 0
    ensures var c := ChosenCode(db, o, draw, n);
      if c.None? then forall i :: n <= i < Attempts(draw) ==> OpenHolder(db.tickets, draw.codes[i])
      else exists i :: n <= i < Attempts(draw) && draw.codes[i] == c.value && !OpenHolder(db.tickets, c.value)
                       && forall j :: n <= j < i ==> OpenHolder(db.tickets, draw.codes[j])
    decreases MAX_CODE_ATTEMPTS - n
  {
    assert forall code :: CodeTaken(db.tickets, code) <==> OpenHolder(db.tickets, code);
    if n < Attempts(draw) && CodeTaken(db.tickets, draw.codes[n]) && !draw.poisons {
      FirstFreeCode(db, o, draw, n + 1);
    }
  }

  /** A purchase that no constraint forbids fails exactly when every code it may try is held by a live ticket. */
  lemma {:induction false} PurchaseFails(db: Db, o: Order, draw: Draw)
    requires o.grams > 0 && !ReferenceTaken(db.tickets, o.reference) && (o.shift.Some? ==> o.shift.value < |db.shifts|)
    ensures Purchase(db, o, draw).1.None?
      <==> forall i :: 0 <= i < Attempts(draw) ==> OpenHolder(db.tickets, draw.codes[i])
    ensures Purchase(db, o, draw).1.None? ==> Purchase(db, o, draw).0 == db
  {
    FirstFreeCode(db, o, draw, 0);
  }

  /** What a purchase adds: one ticket with the order's columns, and a code and reference that no constraint forbids. */
  lemma {:induction false} PurchaseRow(db: Db, o: Order, draw: Draw)
    ensures var (after, t) := Purchase(db, o, draw);
      if t.None? then after == db
      else
        && t.value == |db.tickets| && |after.tickets| == |db.tickets| + 1
        && after == db.(tickets := db.tickets + [after.tickets[t.value]])
        && var row := after.tickets[t.value];
           && row == Ticket(o.reference, row.code, o.phone, o.grams, o.rate, o.amount, o.channel,
                            if o.paid then Paid else Pending, db.clock, if o.paid then Some(db.clock) else None,
                            o.soldBy, o.shift, None, None, None, None, None, None, None, None, None, None, None, None)
           && row.code in draw.codes && o.grams > 0 && (o.shift.Some? ==> o.shift.value < |db.shifts|)
           && forall i :: 0 <= i < |db.tickets| ==>
                && db.tickets[i].reference != o.reference
                && (db.tickets[i].code == row.code ==> db.tickets[i].status !in {Pending, Paid, Dispensing})
  {
    ChosenIsDrawn(db, o, draw, 0);
    var c := ChosenCode(db, o, draw, 0);
    if c.Some? {
      assert TryInsert(db, NewTicket(o, c.value, db.clock)).Inserted?;
      CodeTakenExactly(db.tickets, c.value);
    }
  }

  lemma {:induction false} ChosenIsDrawn(db: Db, o: Order, draw: Draw, n: nat)
    ensures var c := ChosenCode(db, o, draw, n);
      c.Some? ==> c.value in draw.codes && TryInsert(db, NewTicket(o, c.value, db.clock)).Inserted?
    decreases MAX_CODE_ATTEMPTS - n
  {
    if n < MAX_CODE_ATTEMPTS && n < |draw.codes| {
      ChosenIsDrawn(db, o, draw, n + 1);
    }
  }

  /** The size an amount buys at a price: the nearest number of grams, and more than none. */
  predicate Buys(amount: nat, price: Option<int>, grams: int) {
    && price.Some? && price.value > 0 && grams > 0
    && 2 * (price.value * grams) - price.value <= 2 * (1000 * amount) < 2 * (price.value * grams) + price.value
  }

  /** A price is set and the amount buys at least half a gram. */
  predicate Affords(amount: nat, price: Option<int>) {
    price.Some? && 0 < price.value <= 2000 * amount
  }

  lemma {:induction false} GramsBought(amount: nat, price: Option<int>)
    requires price.Some? && price.value > 0
    ensures Affords(amount, price) <==> GramsFromAmount(amount, price.value) > 0
    ensures Affords(amount, price) ==> Buys(amount, price, GramsFromAmount(amount, price.value))
  {
    Price.RoundDivNearest(amount * 1000, price.value);
    var grams := GramsFromAmount(amount, price.value);
    if grams > 0 {
      Price.MulStep(price.value, 0, grams);
    }
  }

  /** An online purchase happens exactly when the plant is open, the amount buys something and a code is free. */
  lemma {:induction false} BuyOnlineExactly(db: Db, isOpen: bool, price: Option<int>, amount: nat, channel: Channel,
                                            phone: string, reference: string, draw: Draw)
    requires !ReferenceTaken(db.tickets, reference)
    ensures var after := BuyOnline(db, isOpen, price, amount, channel, phone, reference, draw);
      if isOpen && Affords(amount, price) && channel != Cash
         && exists i :: 0 <= i < Attempts(draw) && !OpenHolder(db.tickets, draw.codes[i])
      then
        && |after.tickets| == |db.tickets| + 1
        && after == db.(tickets := db.tickets + [after.tickets[|db.tickets|]])
        && var row := after.tickets[|db.tickets|];
           && row.status == Pending && row.paidAt == None && row.amount == amount && row.channel == channel
           && row.phone == phone && row.reference == reference && row.rate == price.value && row.shift == None
           && Buys(amount, price, row.grams) && !OpenHolder(db.tickets, row.code)
      else after == db
  {
    if isOpen && price.Some? && price.value > 0 && channel != Cash {
      GramsBought(amount, price);
      var grams := GramsFromAmount(amount, price.value);
      if grams > 0 {
        var o := Order(reference, phone, grams, price.value, amount, channel, false, None, None);
        PurchaseFails(db, o, draw);
        PurchaseRow(db, o, draw);
      }
    }
    hide Purchase;
  }

  /** So does a cash sale, under the same conditions; it also takes the least busy pump and records its movement. */
  lemma {:induction false} CashSaleExactly(db: Db, isOpen: bool, price: Option<int>, amount: nat, phone: string,
                                           reference: string, draw: Draw, user: nat, shift: nat)
    requires !ReferenceTaken(db.tickets, reference) && shift < |db.shifts|
    ensures var r := CashSale(db, isOpen, price, amount, phone, reference, draw, user, shift);
      && (r.Ok? <==> isOpen && Affords(amount, price)
                     && exists i :: 0 <= i < Attempts(draw) && !OpenHolder(db.tickets, draw.codes[i]))
      && (r.Ok? ==>
            var (after, t) := r.value; var pumps := EnsureDefault(db.pumps);
            && t == |db.tickets| && |after.tickets| == t + 1
            && after == db.(tickets := db.tickets + [after.tickets[t]], pumps := pumps,
                            movements := db.movements + [Movement(shift, Sale, amount, None, Some(t), user)])
            && var row := after.tickets[t];
               && row.status == Paid && row.paidAt == Some(db.clock) && row.amount == amount && row.channel == Cash
               && row.phone == phone && row.reference == reference && row.rate == price.value
               && row.soldBy == Some(user) && row.shift == Some(shift)
               && Buys(amount, price, row.grams) && !OpenHolder(db.tickets, row.code)
               && row.pump == LeastBusy(db.tickets, pumps, |pumps|))
  {
    if isOpen && price.Some? && price.value > 0 {
      GramsBought(amount, price);
      var grams := GramsFromAmount(amount, price.value);
      if grams > 0 {
        var o := Order(reference, phone, grams, price.value, amount, Cash, true, Some(user), Some(shift));
        PurchaseFails(db, o, draw);
        PurchaseRow(db, o, draw);
        hide Purchase, LeastBusy, AssignLeastBusy;
        var (sold, t) := Purchase(db, o, draw);
        if t.Some? {
          SaleServed(db, sold, t.value);
        }
      }
    }
  }

  /** A new ticket without a pump gets the one that was least busy before it. */
  lemma {:induction false} SaleServed(db: Db, sold: Db, t: nat)
    requires t == |db.tickets| && |sold.tickets| == t + 1 && sold.tickets[t].pump == None
    requires sold == db.(tickets := db.tickets + [sold.tickets[t]])
    ensures var pumps := EnsureDefault(db.pumps); var row := sold.tickets[t];
      AssignLeastBusy(sold, t).0
        == db.(tickets := db.tickets + [row.(pump := LeastBusy(db.tickets, pumps, |pumps|))], pumps := pumps)
  {
    var pumps, row := EnsureDefault(db.pumps), sold.tickets[t];
    IdleRow(db.tickets, t, row);
    Settlement.SameLoadsSameChoice(db.tickets, sold.tickets, pumps, |pumps|);
    AssignmentRow(sold, t);
    assert sold.tickets[t := row.(pump := LeastBusy(db.tickets, pumps, |pumps|))]
        == db.tickets + [row.(pump := LeastBusy(db.tickets, pumps, |pumps|))];
  }

  // ---- payments, voids, confirmations ----

  lemma {:induction false} SameReference(ts: seq<Ticket>, us: seq<Ticket>, reference: string)
    requires |ts| == |us| && forall i :: 0 <= i < |ts| ==> ts[i].reference == us[i].reference
    ensures FindReference(us, reference) == FindReference(ts, reference)
  {
    var a, b := FindReference(ts, reference), FindReference(us, reference);
    assert a < |ts| ==> us[a].reference == reference;
    assert b < |us| ==> ts[b].reference == reference;
  }

  /** After a void no payment reaches the ticket, and it cannot be voided, filled or dispensed. */
  lemma {:induction false} VoidIsFinal(db: Db, reference: string, actor: nat, reason: string,
                                       outcome: Option<Verification>)
    requires Void(db, reference, actor, reason).Ok?
    ensures var t, after := FindReference(db.tickets, reference), Void(db, reference, actor, reason).value;
      && t < |db.tickets|
      && after == db.(tickets := db.tickets[t := after.tickets[t]])
      && after.tickets[t].voidedAt == Some(db.clock) && after.tickets[t].voidedBy == Some(actor)
      && after.tickets[t].voidReason == Some(reason)
      && Deliver(after, reference, outcome) == after
      && (forall a: nat, r: string :: Void(after, reference, a, r).Err?)
      && (forall a: nat :: StartDispensing(after, t, a).Err?) && (forall s: nat :: Fill(after, t, s).Err?)
  {
    SameReference(db.tickets, Void(db, reference, actor, reason).value.tickets, reference);
  }

  /** A ticket that is dispensing or filled can no longer be voided. */
  lemma {:induction false} NoVoidOnceStarted(db: Db, t: nat, actor: nat, voider: nat, reason: string)
    requires ReferencesOk(db.tickets) && StartDispensing(db, t, actor).Ok?
    ensures var after := StartDispensing(db, t, actor).value;
      && after.tickets[t].startedBy == Some(actor) && after.tickets[t].startedAt == Some(db.clock)
      && Void(after, db.tickets[t].reference, voider, reason).Err? && StartDispensing(after, t, voider).Err?
  {
    var after := StartDispensing(db, t, actor).value;
    SameReference(db.tickets, after.tickets, db.tickets[t].reference);
  }

  /** The one-step fill ends where starting and closing do, but for who started, who closed and the note. */
  lemma {:induction false} FillIsStartAndClose(db: Db, t: nat, shift: nat, starter: nat, closer: nat,
                                               note: Option<string>)
    requires t < |db.tickets| && db.tickets[t].status == Paid && shift < |db.shifts|
    ensures StartDispensing(db, t, starter).Ok?
    ensures var started := StartDispensing(db, t, starter).value;
      var closed := CloseFilled(started, t, shift, closer, note);
      && closed.Ok? && Fill(db, t, shift).Ok?
      && closed.value == db.(tickets := db.tickets[t := Fill(db, t, shift).value.tickets[t].(
           startedAt := Some(db.clock), startedBy := Some(starter), closedBy := Some(closer), closeNote := note)])
  {
    var started := StartDispensing(db, t, starter).value;
    assert started.tickets[t] == StartedRow(db.tickets[t], db.clock, starter);
    assert CloseFilled(started, t, shift, closer, note).value.tickets
        == db.tickets[t := ClosedRow(started.tickets[t], db.clock, shift, closer, note)];
  }

  /** A ticket can be voided exactly while it is pending or paid. */
  lemma {:induction false} VoidExactly(db: Db, t: nat, actor: nat, reason: string)
    requires ReferencesOk(db.tickets) && t < |db.tickets|
    ensures Void(db, db.tickets[t].reference, actor, reason).Ok? <==> db.tickets[t].status in {Pending, Paid}
  {
    assert FindReference(db.tickets, db.tickets[t].reference) <= t;
  }

  /** Confirming twice is confirming once: the second call changes nothing, whenever it comes. */
  lemma ConfirmTwice(db: Db, reference: string, phone: string, later: nat)
    requires Confirm(db, reference, phone).Ok?
    ensures var after := Confirm(db, reference, phone).value.(clock := later);
      && Confirm(after, reference, phone) == Ok(after)
      && var t := FindReference(db.tickets, reference);
         t < |db.tickets|
         && after.tickets[t].confirmedAt
              == (if db.tickets[t].confirmedAt.Some? then db.tickets[t].confirmedAt else Some(db.clock))
  {
    SameReference(db.tickets, Confirm(db, reference, phone).value.tickets, reference);
  }

  /** Only the customer's own filled ticket can be confirmed. */
  lemma {:induction false} ConfirmExactly(db: Db, t: nat, phone: string)
    requires ReferencesOk(db.tickets) && t < |db.tickets|
    ensures Confirm(db, db.tickets[t].reference, phone).Ok?
      <==> db.tickets[t].phone == phone && db.tickets[t].status == Filled
  {
    assert FindReference(db.tickets, db.tickets[t].reference) <= t;
  }

  // ---- shifts ----

  /** Where FindOpen looks, found again after a row is appended. */
  lemma {:induction false} FindOpenAppended(ss: seq<Shift>, row: Shift)
    requires FindOpen(ss, row.user) == |ss| && IsOpen(row)
    ensures FindOpen(ss + [row], row.user) == |ss|
  {
    var r := FindOpen(ss + [row], row.user);
    assert forall i :: 0 <= i < |ss| ==> (ss + [row])[i] == ss[i];
    assert (ss + [row])[|ss|] == row;
  }

  /** A user who signs in again gets the same shift back, untouched, whatever cash or pump is entered. */
  lemma ResumeKeeps(db: Db, user: nat, cash: int, pump: Option<nat>, cash2: int, pump2: Option<nat>)
    ensures var (after, s) := StartOrResume(db, user, cash, pump);
      && StartOrResume(after, user, cash2, pump2) == (after, s)
      && s < |after.shifts| && after.shifts[s].user == user && IsOpen(after.shifts[s])
  {
    if FindOpen(db.shifts, user) == |db.shifts| {
      FindOpenAppended(db.shifts, Shift(user, pump, db.clock, cash, None, None));
    }
  }

  /** Closing a shift ends it for good; the next sign-in opens a new one with the cash then entered. */
  lemma {:induction false} CloseThenStart(db: Db, s: nat, user: nat, counted: int, cash: int, pump: Option<nat>)
    requires Valid(db) && CloseShift(db, s, user, counted).Ok?
    ensures var closed := CloseShift(db, s, user, counted).value;
      var (after, next) := StartOrResume(closed, user, cash, pump);
      && CloseShift(closed, s, user, counted).Err?
      && next == |db.shifts| && after.shifts[s] == closed.shifts[s] && after.shifts[next].openingCash == cash
  {
    var closed := CloseShift(db, s, user, counted).value;
    forall i | 0 <= i < |closed.shifts| ensures !(closed.shifts[i].user == user && IsOpen(closed.shifts[i])) {
      if i < s {
        assert IsOpen(db.shifts[i]) ==> db.shifts[i].user != db.shifts[s].user;
      } else if i > s {
        assert IsOpen(db.shifts[i]) ==> db.shifts[s].user != db.shifts[i].user;
      }
    }
  }

  /** Row b is shift a later: nothing changes but that it may close, once. */
  predicate ShiftLater(a: Shift, b: Shift) {
    b == a || (IsOpen(a) && !IsOpen(b) && b == a.(closedAt := b.closedAt, closingCash := b.closingCash))
  }

  ghost predicate ShiftsLater(db: Db, after: Db) {
    && |db.pumps| <= |after.pumps| && |db.shifts| <= |after.shifts|
    && forall i :: 0 <= i < |db.shifts| ==> ShiftLater(db.shifts[i], after.shifts[i])
  }

  lemma ShiftsOnlyGrow(db: Db, s: Runs.Step)
    ensures ShiftsLater(db, Runs.Apply(db, s))
  {
    hide Purchase, LeastBusy, FindReference, MarkPaid;
    match s {
      case StartShift(user, cash, at) =>
      case CloseShift(i, user, cash) =>
      case UpsertPump(id, name, status, sortOrder) =>
      case CashSale(isOpen, price, amount, phone, reference, draw, user, shift) => SaleLeavesShifts(db, s);
      case BuyOnline(isOpen, price, amount, channel, phone, reference, draw) => SaleLeavesShifts(db, s);
      case Deliver(reference, outcome) => SaleLeavesShifts(db, s);
      case _ =>
    }
  }

  lemma SaleLeavesShifts(db: Db, s: Runs.Step)
    requires s.CashSale? || s.BuyOnline? || s.Deliver?
    ensures Runs.Apply(db, s).shifts == db.shifts && |db.pumps| <= |Runs.Apply(db, s).pumps|
  {
  }

  lemma {:induction false} RunKeepsShifts(db: Db, steps: seq<Runs.Step>)
    ensures ShiftsLater(db, Runs.Run(db, steps))
  {
    if steps != [] {
      hide Runs.Apply;
      var mid := Runs.Run(db, steps[..|steps| - 1]);
      RunKeepsShifts(db, steps[..|steps| - 1]);
      ShiftsOnlyGrow(mid, steps[|steps| - 1]);
      forall i | 0 <= i < |db.shifts| ensures ShiftLater(db.shifts[i], Runs.Run(db, steps).shifts[i]) {
        assert ShiftLater(db.shifts[i], mid.shifts[i]) && ShiftLater(mid.shifts[i], Runs.Run(db, steps).shifts[i]);
      }
    }
  }

  /**
   After a sign-in that puts a user's shift at pump p, p is refused to everyone else through any run
   until that shift closes.
   */
  lemma {:induction false} PumpHeld(db: Db, owner: nat, cash: int, p: nat, steps: seq<Runs.Step>,
                                    other: nat, float: int)
    requires Valid(db) && StartShift(db, owner, cash, Some(p)).Ok? && other != owner
    requires var (mid, s) := StartShift(db, owner, cash, Some(p)).value;
      s < |mid.shifts| && mid.shifts[s].pump == Some(p)
    ensures var (mid, s) := StartShift(db, owner, cash, Some(p)).value; var after := Runs.Run(mid, steps);
      && s < |after.shifts| && p < |after.pumps|
      && (IsOpen(after.shifts[s]) ==>
            StartShift(after, other, float, Some(p)) ==
              Err(if after.pumps[p].status == Working then PumpBusy else NoWorkingPump))
  {
    var (mid, s) := StartShift(db, owner, cash, Some(p)).value;
    var after := Runs.Run(mid, steps);
    RunKeepsShifts(mid, steps);
    assert ShiftLater(mid.shifts[s], after.shifts[s]);
    ResumeKeeps(db, owner, cash, Some(p), cash, Some(p));
    assert mid.shifts[s].user == owner;
  }

  /** When that shift closes a working pump is free again for anyone. */
  lemma PumpReleased(db: Db, s: nat, p: nat, owner: nat, counted: int, other: nat)
    requires Valid(db) && CloseShift(db, s, owner, counted).Ok? && db.shifts[s].pump == Some(p)
      && db.pumps[p].status == Working
    ensures ValidateShiftPump(CloseShift(db, s, owner, counted).value, p, other) == Ok(())
  {
    var after := CloseShift(db, s, owner, counted).value;
    forall i | 0 <= i < |after.shifts| ensures !(after.shifts[i].pump == Some(p) && IsOpen(after.shifts[i])) {
      if i < s {
        assert IsOpen(db.shifts[i]) && db.shifts[i].pump.Some? ==> db.shifts[i].pump != db.shifts[s].pump;
      } else if s < i {
        assert IsOpen(db.shifts[i]) ==> db.shifts[s].pump != db.shifts[i].pump;
      }
    }
  }

  // ---- pumps ----

  /** A ticket is left without a pump exactly when no pump works. */
  lemma UnassignedExactly(db: Db, t: nat)
    requires t < |db.tickets| && db.tickets[t].pump.None?
    ensures AssignLeastBusy(db, t).1.None?
      <==> db.pumps != [] && forall p :: 0 <= p < |db.pumps| ==> db.pumps[p].status != Working
  {
    var pumps := EnsureDefault(db.pumps);
    LeastBusyFirst(db.tickets, pumps, |pumps|);
    assert db.pumps == [] ==> pumps[0].status == Working;
  }
}
