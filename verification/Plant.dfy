/**
 The plant's database as the statements of the Go packages change it, and the transactions of the
 HTTP handlers. Each statement is proved equal to its function in Transactions, and each handler to
 one step of the state machine in Runs: a body that fails is rolled back.
 */
module Plant {
  import opened Basics
  import opened Tables
  import opened Transactions
  import opened Runs
  import opened Strings
  import V = Validity
  import L = Ledger
  import Greedy
  import Lifecycle
  import Effects
  import Settlement

  /** Row u is row t filled at a time under a shift: its order, payment, pump and start stay. */
  predicate IsFill(t: Ticket, u: Ticket, now: nat, shift: nat) {
    && u == t.(status := Filled, filledAt := Some(now), filledShift := Some(shift), netGrams := u.netGrams,
               closedBy := u.closedBy, closeNote := u.closeNote)
    && u.netGrams == if t.netGrams.Some? then t.netGrams else Some(t.grams)
  }

  lemma ClosedIsFill(t: Ticket, now: nat, shift: nat, actor: nat, note: Option<string>)
    ensures var u := ClosedRow(t, now, shift, actor, note);
      IsFill(t, u, now, shift) && u.closedBy == Some(actor) && u.closeNote == note
  {
  }

  lemma NoneClosed(ts: seq<Ticket>, pump: nat, now: nat, shift: nat, actor: nat, note: Option<string>)
    ensures BulkClosedRows(ts, 0, pump, now, shift, actor, note) == ts
  {
  }

  lemma OneMoreClosed(ts: seq<Ticket>, i: nat, pump: nat, now: nat, shift: nat, actor: nat, note: Option<string>)
    requires i < |ts|
    ensures var rows := BulkClosedRows(ts, i, pump, now, shift, actor, note);
      && rows[i] == ts[i]
      && BulkClosedRows(ts, i + 1, pump, now, shift, actor, note)
         == if Queued(ts[i], pump) then rows[i := ClosedRow(ts[i], now, shift, actor, note)] else rows
  {
    hide ClosedRow;
  }

  lemma NotQueuedNotClosed(ts: seq<Ticket>, i: nat, pump: nat, now: nat, shift: nat, actor: nat, note: Option<string>)
    requires i <= |ts| && forall j :: 0 <= j < i ==> !Queued(ts[j], pump)
    ensures BulkClosedRows(ts, i, pump, now, shift, actor, note) == ts
  {
    hide ClosedRow;
  }

  /** Every ticket queued at the pump is filled, and no other row changes. */
  lemma QueueFilled(ts: seq<Ticket>, pump: nat, now: nat, shift: nat, actor: nat, note: Option<string>)
    ensures var rows := BulkClosedRows(ts, |ts|, pump, now, shift, actor, note);
      forall j :: 0 <= j < |ts| ==>
        if Queued(ts[j], pump)
        then IsFill(ts[j], rows[j], now, shift) && rows[j].closedBy == Some(actor) && rows[j].closeNote == note
        else rows[j] == ts[j]
  {
    hide ClosedRow, IsFill;
    forall j | 0 <= j < |ts| && Queued(ts[j], pump) {
      ClosedIsFill(ts[j], now, shift, actor, note);
    }
  }

  class Plant {
    var tickets: seq<Ticket>
    var pumps: seq<Pump>
    var shifts: seq<Shift>
    var movements: seq<Movement>
    var clock: nat

    constructor (pumps: seq<Pump>)
      ensures State() == Initial(pumps) && V.Valid(State())
    {
      this.tickets, this.pumps, this.shifts, this.movements, this.clock := [], pumps, [], [], 0;
      new;
      V.InitialValid(pumps);
    }

    function State(): Db
      reads this
    {
      Db(tickets, pumps, shifts, movements, clock)
    }

    /** Puts every table back to an earlier state; the clock goes on. */
    method Rollback(db: Db)
      modifies this`tickets, this`pumps, this`shifts, this`movements
      ensures State() == db.(clock := clock)
    {
      tickets, pumps, shifts, movements := db.tickets, db.pumps, db.shifts, db.movements;
    }

    // ---- package tickets ----

    /** Inserts a ticket under a fresh code, trying again on a code that is already taken. */
    method Purchase(o: Order, draw: Draw) returns (t: Option<nat>)
      modifies this`tickets
      ensures (State(), t) == Transactions.Purchase(old(State()), o, draw)
      ensures t.None? ==> tickets == old(tickets)
      ensures t.Some? ==> t.value == |old(tickets)| < |tickets| && tickets == old(tickets) + [tickets[t.value]]
      ensures t.Some? ==> tickets[t.value].reference == o.reference && tickets[t.value].code in draw.codes
      ensures t.Some? ==> forall i :: 0 <= i < |old(tickets)| ==>
        && old(tickets)[i].reference != o.reference
        && (old(tickets)[i].code == tickets[t.value].code ==>
              old(tickets)[i].status !in {Pending, Paid, Dispensing})
    {
      Effects.PurchaseRow(State(), o, draw);
      var attempt := 0;
      while attempt < MAX_CODE_ATTEMPTS
        invariant attempt <= MAX_CODE_ATTEMPTS
        invariant State() == old(State())
        invariant ChosenCode(State(), o, draw, 0) == ChosenCode(State(), o, draw, attempt)
      {
        if attempt >= |draw.codes| {
          return None;
        }
        var row := NewTicket(o, draw.codes[attempt], clock);
        match TryInsert(State(), row) {
          case Inserted =>
            tickets := tickets + [row];
            return Some(|tickets| - 1);
          case UniqueViolation =>
            if draw.poisons {
              return None;
            }
          case Refused =>
            return None;
        }
        attempt := attempt + 1;
      }
      return None;
    }

    /** The most recently created ticket with the code decides. */
    method Redeem(code: string) returns (r: Result<nat, RedeemError>)
      ensures r == Transactions.Redeem(tickets, code)
      ensures V.Valid(State()) ==>
        (r.Ok? <==> exists t :: 0 <= t < |tickets| && tickets[t].code == code && tickets[t].status == Paid)
      ensures r.Ok? ==> r.value < |tickets| && tickets[r.value].code == code && tickets[r.value].status == Paid
      ensures r == Err(CodeNotFound) <==> forall t :: 0 <= t < |tickets| ==> tickets[t].code != code
    {
      var newest := Newest(tickets, |tickets|, code);
      if newest.None? {
        r := Err(CodeNotFound);
      } else {
        match tickets[newest.value].status {
          case Paid => r := Ok(newest.value);
          case Dispensing | Filled => r := Err(AlreadyRedeemed);
          case _ => r := Err(NotPayable);
        }
      }
      hide V.Valid, Newest;
      if V.Valid(State()) {
        Lifecycle.RedeemSome(State(), code);
      }
      Lifecycle.RedeemGives(tickets, code);
      Lifecycle.RedeemUnknown(tickets, code);
    }

    method MarkPaid(t: nat) returns (r: Result<bool, ()>)
      modifies this`tickets
      ensures match Transactions.MarkPaid(old(State()), t)
              case Ok(after) => State() == after.0 && r == Ok(after.1)
              case Err(_) => State() == old(State()) && r.Err?
      ensures r.Err? <==> t >= |old(tickets)|
      ensures r == Ok(true) <==> t < |old(tickets)| && old(tickets)[t].status in {Pending, Paid, Dispensing, Filled}
      ensures tickets == if t < |old(tickets)| && old(tickets)[t].status == Pending
                         then old(tickets)[t := old(tickets)[t].(status := Paid, paidAt := Some(clock))]
                         else old(tickets)
    {
      if t >= |tickets| {
        return Err(());
      }
      match tickets[t].status {
        case Paid | Dispensing | Filled => return Ok(true);
        case Pending =>
          tickets := tickets[t := tickets[t].(status := Paid, paidAt := Some(clock))];
          return Ok(true);
        case _ => return Ok(false);
      }
    }

    method StartDispensing(t: nat, actor: nat) returns (ok: bool)
      modifies this`tickets
      ensures ok == Transactions.StartDispensing(old(State()), t, actor).Ok?
      ensures State() == OrElse(Transactions.StartDispensing(old(State()), t, actor), old(State()))
      ensures ok <==> t < |old(tickets)| && old(tickets)[t].status == Paid
      ensures tickets == if ok
                         then old(tickets)[t := old(tickets)[t].(
                                status := Dispensing, startedAt := Some(clock), startedBy := Some(actor))]
                         else old(tickets)
    {
      ok := t < |tickets| && tickets[t].status == Paid;
      if ok {
        tickets := tickets[t := StartedRow(tickets[t], clock, actor)];
      }
    }

    method CloseFilled(t: nat, shift: nat, actor: nat, note: Option<string>) returns (ok: bool)
      modifies this`tickets
      ensures ok == Transactions.CloseFilled(old(State()), t, shift, actor, note).Ok?
      ensures State() == OrElse(Transactions.CloseFilled(old(State()), t, shift, actor, note), old(State()))
      ensures ok <==> t < |old(tickets)| && old(tickets)[t].status == Dispensing && shift < |shifts|
      ensures if ok then t < |tickets| && tickets == old(tickets)[t := tickets[t]]
        && IsFill(old(tickets)[t], tickets[t], clock, shift)
                         && tickets[t].closedBy == Some(actor) && tickets[t].closeNote == note
              else tickets == old(tickets)
    {
      ok := t < |tickets| && tickets[t].status == Dispensing && shift < |shifts|;
      if ok {
        tickets := tickets[t := ClosedRow(tickets[t], clock, shift, actor, note)];
      }
    }

    method BulkCloseFilled(pump: nat, shift: nat, actor: nat, note: Option<string>) returns (r: Result<nat, ()>)
      modifies this`tickets
      ensures match Transactions.BulkCloseFilled(old(State()), pump, shift, actor, note)
              case Ok(after) => State() == after.0 && r == Ok(after.1)
              case Err(_) => State() == old(State()) && r.Err?
      ensures |tickets| == |old(tickets)|
      ensures r.Ok? ==> r.value == |set j: nat | j < |old(tickets)| && old(tickets)[j].status == Dispensing
                                                 && old(tickets)[j].pump == Some(pump)|
      ensures r.Err?
        <==> shift >= |shifts|
             && exists j :: 0 <= j < |old(tickets)| && old(tickets)[j].status == Dispensing
                            && old(tickets)[j].pump == Some(pump)
      ensures r.Ok? ==> forall j :: 0 <= j < |tickets| ==>
        if old(tickets)[j].status == Dispensing && old(tickets)[j].pump == Some(pump)
        then
          && IsFill(old(tickets)[j], tickets[j], clock, shift)
          && tickets[j].closedBy == Some(actor) && tickets[j].closeNote == note
        else tickets[j] == old(tickets)[j]
    {
      hide ClosedRow, IsFill, BulkClosedRows;
      V.QueueEmpty(tickets, |tickets|, pump);
      QueueFilled(tickets, pump, clock, shift, actor, note);
      Settlement.QueueSetSize(tickets, |tickets|, pump);
      assert Settlement.QueueSet(tickets, |tickets|, pump)
          == set j: nat | j < |tickets| && tickets[j].status == Dispensing && tickets[j].pump == Some(pump);
      var ok, n := CloseQueue(pump, shift, actor, note);
      return if ok then Ok(n) else Err(());
    }

    /** The statement row by row; it fails on the first row it would give a shift that does not exist. */
    method CloseQueue(pump: nat, shift: nat, actor: nat, note: Option<string>) returns (ok: bool, n: nat)
      modifies this`tickets
      ensures ok ==> tickets == BulkClosedRows(old(tickets), |old(tickets)|, pump, clock, shift, actor, note)
                     && n == QueueLength(old(tickets), |old(tickets)|, pump) && (n > 0 ==> shift < |shifts|)
      ensures !ok ==> tickets == old(tickets) && shift >= |shifts|
      ensures !ok ==> exists j :: 0 <= j < |tickets| && Queued(tickets[j], pump)
    {
      hide ClosedRow, BulkClosedRows;
      n := 0;
      NoneClosed(tickets, pump, clock, shift, actor, note);
      for i := 0 to |tickets|
        invariant |tickets| == |old(tickets)|
          && tickets == BulkClosedRows(old(tickets), i, pump, clock, shift, actor, note)
        invariant n == QueueLength(old(tickets), i, pump) && (n > 0 ==> shift < |shifts|)
      {
        OneMoreClosed(old(tickets), i, pump, clock, shift, actor, note);
        if Queued(tickets[i], pump) {
          if shift >= |shifts| {
            V.QueueEmpty(old(tickets), i, pump);
            NotQueuedNotClosed(old(tickets), i, pump, clock, shift, actor, note);
            return false, 0;
          }
          tickets := tickets[i := ClosedRow(tickets[i], clock, shift, actor, note)];
          n := n + 1;
        }
      }
      return true, n;
    }

    method Fill(t: nat, shift: nat) returns (ok: bool)
      modifies this`tickets
      ensures ok == Transactions.Fill(old(State()), t, shift).Ok?
      ensures State() == OrElse(Transactions.Fill(old(State()), t, shift), old(State()))
      ensures ok <==> t < |old(tickets)| && old(tickets)[t].status in {Paid, Dispensing} && shift < |shifts|
      ensures if ok then t < |tickets| && tickets == old(tickets)[t := tickets[t]]
        && IsFill(old(tickets)[t], tickets[t], clock, shift)
                         && tickets[t].closedBy == old(tickets)[t].closedBy
              else tickets == old(tickets)
    {
      ok := t < |tickets| && Busy(tickets[t]) && shift < |shifts|;
      if ok {
        tickets := tickets[t := FilledRow(tickets[t], clock, shift)];
      }
    }

    method Void(reference: string, actor: nat, reason: string) returns (ok: bool)
      modifies this`tickets
      ensures ok == Transactions.Void(old(State()), reference, actor, reason).Ok?
      ensures State() == OrElse(Transactions.Void(old(State()), reference, actor, reason), old(State()))
      ensures V.ReferencesOk(old(tickets)) ==>
        (ok <==> exists t :: 0 <= t < |old(tickets)| && old(tickets)[t].reference == reference
                             && old(tickets)[t].status in {Pending, Paid})
      ensures if ok then exists t :: 0 <= t < |old(tickets)| && old(tickets)[t].reference == reference
                                     && old(tickets)[t].status in {Pending, Paid}
                                     && tickets == old(tickets)[t := old(tickets)[t].(
                                          status := Voided, voidReason := Some(reason),
                                          voidedBy := Some(actor), voidedAt := Some(clock))]
              else tickets == old(tickets)
    {
      var t := FindReference(tickets, reference);
      ok := t < |tickets| && (tickets[t].status == Pending || tickets[t].status == Paid);
      if ok {
        tickets := tickets[t := tickets[t].(status := Voided, voidReason := Some(reason),
                                            voidedBy := Some(actor), voidedAt := Some(clock))];
      }
    }

    method Confirm(reference: string, phone: string) returns (ok: bool)
      modifies this`tickets
      ensures ok == Transactions.Confirm(old(State()), reference, phone).Ok?
      ensures State() == OrElse(Transactions.Confirm(old(State()), reference, phone), old(State()))
      ensures V.ReferencesOk(old(tickets)) ==>
        (ok <==> exists t :: 0 <= t < |old(tickets)| && old(tickets)[t].reference == reference
                             && old(tickets)[t].phone == phone && old(tickets)[t].status == Filled)
      ensures if ok then exists t :: 0 <= t < |old(tickets)| && old(tickets)[t].reference == reference
                                     && old(tickets)[t].phone == phone && old(tickets)[t].status == Filled
                                     && tickets == old(tickets)[t := old(tickets)[t].(confirmedAt :=
                                          if old(tickets)[t].confirmedAt.Some? then old(tickets)[t].confirmedAt
                                          else Some(clock))]
              else tickets == old(tickets)
    {
      var t := FindReference(tickets, reference);
      if t == |tickets| || tickets[t].phone != phone || tickets[t].status != Filled {
        return false;
      }
      if tickets[t].confirmedAt.None? {
        tickets := tickets[t := tickets[t].(confirmedAt := Some(clock))];
      }
      return true;
    }

    // ---- package pumps ----

    method EnsureDefault()
      modifies this`pumps
      ensures State() == old(State()).(pumps := Transactions.EnsureDefault(old(pumps)))
      ensures pumps == if old(pumps) == [] then [Pump("Pump 1", Working, 1)] else old(pumps)
    {
      if |pumps| == 0 {
        pumps := [Pump("Pump 1", Working, 1)];
      }
    }

    method CountBusy(p: nat) returns (n: nat)
      ensures n == Load(tickets, p)
      ensures n == |set i: nat | i < |tickets| && tickets[i].status in {Paid, Dispensing} && tickets[i].pump == Some(p)|
    {
      LoadCounts(tickets, p);
      n := 0;
      for i := 0 to |tickets|
        invariant n == Load(tickets[..i], p)
      {
        assert tickets[..i + 1][..i] == tickets[..i];
        if Busy(tickets[i]) && tickets[i].pump == Some(p) {
          n := n + 1;
        }
      }
      assert tickets[..|tickets|] == tickets;
    }

    /** The first working pump by number of busy tickets, sort order and age. */
    method Candidate() returns (best: Option<nat>)
      ensures best == LeastBusy(tickets, pumps, |pumps|)
      ensures best.None? <==> forall p :: 0 <= p < |pumps| ==> pumps[p].status != Working
      ensures best.Some? ==> best.value < |pumps| && pumps[best.value].status == Working
      ensures best.Some? ==> forall p :: 0 <= p < |pumps| && pumps[p].status == Working && p != best.value ==>
        || Load(tickets, best.value) < Load(tickets, p)
        || (Load(tickets, best.value) == Load(tickets, p) && pumps[best.value].sortOrder < pumps[p].sortOrder)
        || (Load(tickets, best.value) == Load(tickets, p) && pumps[best.value].sortOrder == pumps[p].sortOrder
            && best.value < p)
    {
      best := None;
      var least := 0;
      for i := 0 to |pumps|
        invariant best == LeastBusy(tickets, pumps, i)
        invariant best.Some? ==> least == Load(tickets, best.value)
      {
        if pumps[i].status == Working {
          var busy := CountBusy(i);
          if best.None? || busy < least || (busy == least && pumps[i].sortOrder < pumps[best.value].sortOrder) {
            best, least := Some(i), busy;
          }
        }
      }
      Greedy.LeastBusyFirst(tickets, pumps, |pumps|);
    }

    /** The candidate query and the guarded update of one statement. */
    method AssignLeastBusy(t: nat) returns (p: Option<nat>)
      modifies this`pumps, this`tickets
      ensures (State(), p) == Transactions.AssignLeastBusy(old(State()), t)
      ensures pumps == if old(pumps) == [] then [Pump("Pump 1", Working, 1)] else old(pumps)
      ensures t < |old(tickets)| ==> tickets == old(tickets)[t := old(tickets)[t].(pump := p)]
      ensures t < |old(tickets)| && old(tickets)[t].pump.Some? ==> p == old(tickets)[t].pump
      ensures t < |old(tickets)| && old(tickets)[t].pump.None? ==>
        p == LeastBusy(old(tickets), Transactions.EnsureDefault(old(pumps)), |Transactions.EnsureDefault(old(pumps))|)
      ensures t >= |old(tickets)| ==> tickets == old(tickets) && p == None
    {
      EnsureDefault();
      var candidate := Candidate();
      if t >= |tickets| {
        return None;
      }
      if tickets[t].pump.None? && candidate.Some? {
        tickets := tickets[t := tickets[t].(pump := candidate)];
      }
      return tickets[t].pump;
    }

    method ValidateShiftPump(pump: nat, user: nat) returns (r: Result<(), PumpError>)
      ensures r == Transactions.ValidateShiftPump(State(), pump, user)
      ensures r == Err(PumpNotFound) <==> pump >= |pumps|
      ensures r == Err(NoWorkingPump) <==> pump < |pumps| && pumps[pump].status != Working
      ensures r == Err(PumpBusy)
        <==> pump < |pumps| && pumps[pump].status == Working
             && exists i :: 0 <= i < |shifts| && shifts[i].closedAt == None && shifts[i].pump == Some(pump)
                            && shifts[i].user != user
    {
      if pump >= |pumps| {
        return Err(PumpNotFound);
      }
      if pumps[pump].status != Working {
        return Err(NoWorkingPump);
      }
      if OccupiedByOther(shifts, pump, user) {
        return Err(PumpBusy);
      }
      return Ok(());
    }

    method Upsert(id: Option<nat>, name: string, status: PumpStatus, sortOrder: int)
      modifies this`pumps
      ensures State() == Transactions.UpsertPump(old(State()), id, name, status, sortOrder)
      ensures var trimmed := TrimSpace(name);
        var row := Pump(if trimmed == "" then "Pump 1" else trimmed, status, if sortOrder <= 0 then 1 else sortOrder);
        pumps ==
          if exists i :: 0 <= i < |old(pumps)| && old(pumps)[i].name == row.name && id != Some(i) then old(pumps)
          else if id.None? then old(pumps) + [row]
          else if id.value < |old(pumps)| then old(pumps)[id.value := row]
          else old(pumps)
    {
      var row := Pump(PumpName(name), status, SortOrderOrOne(sortOrder));
      if !NameTaken(pumps, row.name, id) {
        if id.None? {
          pumps := pumps + [row];
        } else if id.value < |pumps| {
          pumps := pumps[id.value := row];
        }
      }
    }

    // ---- package shifts ----

    method StartOrResume(user: nat, openingCash: int, pump: Option<nat>) returns (s: nat)
      modifies this`shifts, this`movements
      ensures (State(), s) == Transactions.StartOrResume(old(State()), user, openingCash, pump)
      ensures s < |shifts| && shifts[s].user == user && shifts[s].closedAt == None
      ensures if exists i :: 0 <= i < |old(shifts)| && old(shifts)[i].user == user && old(shifts)[i].closedAt == None
              then s < |old(shifts)| && shifts == old(shifts) && movements == old(movements)
              else
                && shifts == old(shifts) + [Shift(user, pump, clock, openingCash, None, None)]
                && movements == old(movements) + [Movement(s, OpeningFloat, openingCash, None, None, user)]
    {
      s := FindOpen(shifts, user);
      if s == |shifts| {
        shifts := shifts + [Shift(user, pump, clock, openingCash, None, None)];
        movements := movements + [Movement(s, OpeningFloat, openingCash, None, None, user)];
      }
    }

    method Close(s: nat, user: nat, closingCash: int) returns (ok: bool)
      modifies this`shifts, this`movements
      ensures ok == Transactions.CloseShift(old(State()), s, user, closingCash).Ok?
      ensures State() == OrElse(Transactions.CloseShift(old(State()), s, user, closingCash), old(State()))
      ensures ok <==> s < |old(shifts)| && old(shifts)[s].user == user && old(shifts)[s].closedAt == None
      ensures shifts == if ok then old(shifts)[s := old(shifts)[s].(closedAt := Some(clock),
                                                                    closingCash := Some(closingCash))]
                        else old(shifts)
      ensures movements == old(movements)
                           + (if ok then [Movement(s, Closing, closingCash, Some(closingCash), None, user)] else [])
    {
      ok := s < |shifts| && shifts[s].user == user && IsOpen(shifts[s]);
      if ok {
        shifts := shifts[s := shifts[s].(closedAt := Some(clock), closingCash := Some(closingCash))];
        movements := movements + [Movement(s, Closing, closingCash, Some(closingCash), None, user)];
      }
    }

    method RecordCashMovement(s: nat, kind: Kind, amount: int, counted: Option<int>, recordedBy: nat) returns (ok: bool)
      modifies this`movements
      ensures ok == Transactions.RecordCashMovement(old(State()), s, kind, amount, counted, recordedBy).Ok?
      ensures var after := Transactions.RecordCashMovement(old(State()), s, kind, amount, counted, recordedBy);
        State() == OrElse(after, old(State()))
      ensures ok <==> kind in {Deposit, Payout, Count} && s < |shifts|
      ensures movements == old(movements) + (if ok then [Movement(s, kind, amount, counted, None, recordedBy)] else [])
    {
      ok := kind in {Deposit, Payout, Count} && s < |shifts|;
      if ok {
        movements := movements + [Movement(s, kind, amount, counted, None, recordedBy)];
      }
    }

    /** The totals the terminal shows: they agree with the tickets sold and filled in the shift. */
    method Summary(s: nat) returns (fills: nat, grams: int, cash: int)
      ensures fills == L.Fills(tickets, s) && grams == L.Grams(tickets, s) && cash == L.CashHeld(movements, s)
      ensures fills == |set i: nat | i < |tickets| && tickets[i].status == Filled && tickets[i].filledShift == Some(s)|
      ensures V.Valid(State()) && s < |shifts| ==> cash == L.CashSold(tickets, s)
    {
      L.FillsCount(tickets, s);
      fills := L.Fills(tickets, s);
      grams := L.Grams(tickets, s);
      cash := L.CashHeld(movements, s);
      if V.Valid(State()) && s < |shifts| {
        L.CashConserved(State(), s);
      }
    }

    // ---- handlers ----
    // Each takes the database's answer to the rest of its body, the audit row and the reads for the
    // reply: if one of those fails, the whole transaction is rolled back.

    /** The state a transaction leaves: its step's, or an untouched database when it was rolled back. */
    static function Committed(db: Db, step: Step, aborts: bool): Db {
      if aborts then db.(clock := db.clock + 1) else Apply(db, step)
    }

    /** Ends a transaction begun in state db. */
    method Finish(db: Db, aborts: bool)
      requires clock == db.clock
      modifies this
      ensures State() == (if aborts then db else old(State())).(clock := db.clock + 1)
    {
      if aborts {
        Rollback(db);
      }
      clock := clock + 1;
    }

    method BuyGas(isOpen: bool, price: Option<int>, amount: nat, channel: Channel, phone: string,
                  reference: string, draw: Draw, aborts: bool)
      requires V.Valid(State())
      modifies this
      ensures State() == Committed(old(State()),
        Step.BuyOnline(isOpen, price, amount, channel, phone, reference, draw), aborts)
      ensures V.Valid(State())
    {
      var began := State();
      V.StepKeeps(began, Step.BuyOnline(isOpen, price, amount, channel, phone, reference, draw));
      NothingDone(began);
      if isOpen && price.Some? && price.value > 0 && channel != Cash {
        var grams := GramsFromAmount(amount, price.value);
        if grams > 0 {
          var _ := Purchase(Order(reference, phone, grams, price.value, amount, channel, false, None, None), draw);
        }
      }
      Finish(began, aborts);
    }

    /** The transaction of the payment webhook and of the browser callback. */
    method ConfirmPayment(reference: string, outcome: Option<Verification>, aborts: bool)
      requires V.Valid(State())
      modifies this
      ensures State() == Committed(old(State()), Step.Deliver(reference, outcome), aborts)
      ensures V.Valid(State())
      ensures outcome.None? ==> State() == old(State()).(clock := old(clock) + 1)
      ensures forall t :: 0 <= t < |old(tickets)| && old(tickets)[t].reference == reference
                          && old(tickets)[t].status == Pending && outcome.Some? ==>
        && t < |tickets|
        && (tickets[t].status == Paid
            <==> !aborts && outcome.value.status == "success" && outcome.value.amount == old(tickets)[t].amount
                 && (outcome.value.currency == "" || outcome.value.currency == "NGN"))
    {
      hide V.Valid, Transactions.MarkPaid, Transactions.AssignLeastBusy;
      var began := State();
      PaysExactly(began, reference, outcome);
      V.StepKeeps(began, Step.Deliver(reference, outcome));
      NothingDone(began);
      var t := FindReference(tickets, reference);
      if t < |tickets| && outcome.Some? && Confirms(outcome.value, tickets[t].amount) {
        var paid := MarkPaid(t);
        if paid == Ok(true) {
          var _ := AssignLeastBusy(t);
        }
      }
      Finish(began, aborts);
    }

    method CashSale(isOpen: bool, price: Option<int>, amount: nat, phone: string, reference: string, draw: Draw,
                    user: nat, shift: nat, aborts: bool) returns (t: Option<nat>)
      requires V.Valid(State())
      modifies this
      ensures State() == Committed(old(State()),
        Step.CashSale(isOpen, price, amount, phone, reference, draw, user, shift), aborts)
      ensures V.Valid(State())
      ensures t.None? ==> State() == old(State()).(clock := old(clock) + 1)
      ensures t.Some? ==>
        t.value == |old(tickets)| && |tickets| == |old(tickets)| + 1 && tickets[t.value].status == Paid
    {
      hide V.Valid, Transactions.Purchase, Transactions.AssignLeastBusy;
      var began := State();
      V.StepKeeps(began, Step.CashSale(isOpen, price, amount, phone, reference, draw, user, shift));
      CashTicket(began, isOpen, price, amount, phone, reference, draw, user, shift);
      NothingDone(began);
      t := None;
      if isOpen && price.Some? && price.value > 0 {
        var grams := GramsFromAmount(amount, price.value);
        if grams > 0 {
          t := Purchase(Order(reference, phone, grams, price.value, amount, Cash, true, Some(user), Some(shift)), draw);
          if t.Some? {
            var _ := AssignLeastBusy(t.value);
            movements := movements + [Movement(shift, Sale, amount, None, t, user)];
          }
        }
      }
      Finish(began, aborts);
      if aborts {
        t := None;
      }
    }

    /** A pump error answers the request; None stands for a transaction rolled back. */
    method StartShift(user: nat, openingCash: int, pump: Option<nat>, aborts: bool)
      returns (r: Option<Result<nat, PumpError>>)
      requires V.Valid(State())
      modifies this
      ensures State() == Committed(old(State()), Step.StartShift(user, openingCash, pump), aborts && r.None?)
      ensures V.Valid(State())
      ensures r.Some? && r.value.Ok? ==>
        r.value.value < |shifts| && shifts[r.value.value].user == user && IsOpen(shifts[r.value.value])
      ensures r.Some? && r.value.Err? ==> pump.Some? && State() == old(State()).(clock := old(clock) + 1)
      ensures r == Some(Err(PumpNotFound)) <==> pump.Some? && pump.value >= |old(pumps)|
      ensures r == Some(Err(NoWorkingPump))
        <==> pump.Some? && pump.value < |old(pumps)| && old(pumps)[pump.value].status != Working
      ensures r == Some(Err(PumpBusy))
        <==> pump.Some? && pump.value < |old(pumps)| && old(pumps)[pump.value].status == Working
             && exists i :: 0 <= i < |old(shifts)| && old(shifts)[i].closedAt == None && old(shifts)[i].pump == pump
                            && old(shifts)[i].user != user
    {
      hide V.Valid, Transactions.ValidateShiftPump, Transactions.StartOrResume;
      var began := State();
      V.StepKeeps(began, Step.StartShift(user, openingCash, pump));
      NothingDone(began);
      if pump.Some? {
        var valid := ValidateShiftPump(pump.value, user);
        if valid.Err? {
          Finish(began, false);
          return Some(Err(valid.error));
        }
      }
      var s := StartOrResume(user, openingCash, pump);
      Finish(began, aborts);
      return if aborts then None else Some(Ok(s));
    }

    /** A handler of one statement: an error of the statement, or of what follows it, rolls the transaction back. */
    method StartTicket(t: nat, actor: nat, aborts: bool) returns (ok: bool)
      requires V.Valid(State())
      modifies this
      ensures State() == Committed(old(State()), Step.StartDispensing(t, actor), aborts) && V.Valid(State())
      ensures ok <==> !aborts && t < |old(tickets)| && old(tickets)[t].status == Paid
    {
      hide V.Valid;
      var began := State();
      Ends(began, Step.StartDispensing(t, actor));
      ok := StartDispensing(t, actor);
      Finish(began, aborts || !ok);
      ok := ok && !aborts;
    }

    method CloseReceipt(t: nat, shift: nat, actor: nat, note: Option<string>, aborts: bool) returns (ok: bool)
      requires V.Valid(State())
      modifies this
      ensures State() == Committed(old(State()), Step.CloseFilled(t, shift, actor, note), aborts) && V.Valid(State())
      ensures ok <==> !aborts && t < |old(tickets)| && old(tickets)[t].status == Dispensing && shift < |old(shifts)|
    {
      hide V.Valid, ClosedRow;
      var began := State();
      Ends(began, Step.CloseFilled(t, shift, actor, note));
      ok := CloseFilled(t, shift, actor, note);
      Finish(began, aborts || !ok);
      ok := ok && !aborts;
    }

    method BulkCloseReceipts(pump: nat, shift: nat, actor: nat, note: Option<string>, aborts: bool)
      returns (r: Result<nat, ()>)
      requires V.Valid(State())
      modifies this
      ensures State() == Committed(old(State()), Step.BulkCloseFilled(pump, shift, actor, note), aborts)
      ensures V.Valid(State())
      ensures r.Ok? ==> r.value == |set j: nat | j < |old(tickets)| && old(tickets)[j].status == Dispensing
                                                 && old(tickets)[j].pump == Some(pump)|
    {
      hide V.Valid, ClosedRow, BulkClosedRows;
      var began := State();
      Ends(began, Step.BulkCloseFilled(pump, shift, actor, note));
      r := BulkCloseFilled(pump, shift, actor, note);
      Finish(began, aborts || r.Err?);
      if aborts {
        r := Err(());
      }
    }

    method VoidTicket(reference: string, actor: nat, reason: string, aborts: bool) returns (ok: bool)
      requires V.Valid(State())
      modifies this
      ensures State() == Committed(old(State()), Step.Void(reference, actor, reason), aborts) && V.Valid(State())
      ensures ok <==> !aborts && exists t :: 0 <= t < |old(tickets)| && old(tickets)[t].reference == reference
                                             && old(tickets)[t].status in {Pending, Paid}
    {
      var began := State();
      Ends(began, Step.Void(reference, actor, reason));
      ok := Void(reference, actor, reason);
      hide V.Valid;
      Finish(began, aborts || !ok);
      ok := ok && !aborts;
    }

    method ConfirmReceipt(reference: string, phone: string, aborts: bool) returns (ok: bool)
      requires V.Valid(State())
      modifies this
      ensures State() == Committed(old(State()), Step.Confirm(reference, phone), aborts) && V.Valid(State())
      ensures ok <==> !aborts && exists t :: 0 <= t < |old(tickets)| && old(tickets)[t].reference == reference
                                             && old(tickets)[t].phone == phone && old(tickets)[t].status == Filled
    {
      var began := State();
      Ends(began, Step.Confirm(reference, phone));
      ok := Confirm(reference, phone);
      hide V.Valid;
      Finish(began, aborts || !ok);
      ok := ok && !aborts;
    }

    method EndShift(s: nat, user: nat, closingCash: int, aborts: bool) returns (ok: bool)
      requires V.Valid(State())
      modifies this
      ensures State() == Committed(old(State()), Step.CloseShift(s, user, closingCash), aborts) && V.Valid(State())
      ensures ok <==> !aborts && s < |old(shifts)| && old(shifts)[s].user == user && old(shifts)[s].closedAt == None
    {
      hide V.Valid;
      var began := State();
      Ends(began, Step.CloseShift(s, user, closingCash));
      ok := Close(s, user, closingCash);
      Finish(began, aborts || !ok);
      ok := ok && !aborts;
    }

    method SavePump(id: Option<nat>, name: string, status: PumpStatus, sortOrder: int, aborts: bool)
      requires V.Valid(State())
      modifies this
      ensures State() == Committed(old(State()), Step.UpsertPump(id, name, status, sortOrder), aborts)
      ensures V.Valid(State())
    {
      hide V.Valid, Transactions.UpsertPump;
      var began := State();
      Ends(began, Step.UpsertPump(id, name, status, sortOrder));
      Upsert(id, name, status, sortOrder);
      Finish(began, aborts);
    }

    method ListPumps(aborts: bool)
      requires V.Valid(State())
      modifies this
      ensures State() == Committed(old(State()), Step.ListPumps, aborts) && V.Valid(State())
    {
      hide V.Valid, Transactions.EnsureDefault;
      var began := State();
      Ends(began, Step.ListPumps);
      EnsureDefault();
      Finish(began, aborts);
    }

    /** No handler takes this older path any more, nor the next; each is a transaction of its own here. */
    method FillTicket(t: nat, shift: nat, aborts: bool) returns (ok: bool)
      requires V.Valid(State())
      modifies this
      ensures State() == Committed(old(State()), Step.Fill(t, shift), aborts) && V.Valid(State())
      ensures ok <==> !aborts && t < |old(tickets)| && shift < |old(shifts)|
                      && old(tickets)[t].status in {Paid, Dispensing}
    {
      hide V.Valid, FilledRow;
      var began := State();
      Ends(began, Step.Fill(t, shift));
      ok := Fill(t, shift);
      Finish(began, aborts || !ok);
      ok := ok && !aborts;
    }

    method MoveCash(s: nat, kind: Kind, amount: int, counted: Option<int>, recordedBy: nat, aborts: bool)
      returns (ok: bool)
      requires V.Valid(State())
      modifies this
      ensures State() == Committed(old(State()), Step.RecordCashMovement(s, kind, amount, counted, recordedBy), aborts)
      ensures V.Valid(State())
      ensures ok <==> !aborts && kind in {Deposit, Payout, Count} && s < |old(shifts)|
    {
      hide V.Valid;
      var began := State();
      Ends(began, Step.RecordCashMovement(s, kind, amount, counted, recordedBy));
      ok := RecordCashMovement(s, kind, amount, counted, recordedBy);
      Finish(began, aborts || !ok);
      ok := ok && !aborts;
    }
  }

  /** A transaction's step and its rollback both keep the invariant. */
  lemma Ends(db: Db, step: Step)
    requires V.Valid(db)
    ensures V.Valid(Apply(db, step)) && V.Valid(db.(clock := db.clock + 1))
  {
    V.StepKeeps(db, step);
    NothingDone(db);
  }

  lemma PaysExactly(db: Db, reference: string, outcome: Option<Verification>)
    requires V.Valid(db)
    ensures outcome.None? ==> Transactions.Deliver(db, reference, outcome) == db
    ensures forall t :: 0 <= t < |db.tickets| && db.tickets[t].reference == reference
                        && db.tickets[t].status == Pending && outcome.Some? ==>
      && t < |Transactions.Deliver(db, reference, outcome).tickets|
      && (Transactions.Deliver(db, reference, outcome).tickets[t].status == Paid
          <==> outcome.value.status == "success" && outcome.value.amount == db.tickets[t].amount
               && (outcome.value.currency == "" || outcome.value.currency == "NGN"))
  {
    hide V.Valid, Transactions.MarkPaid, Transactions.AssignLeastBusy;
    forall t | 0 <= t < |db.tickets| && db.tickets[t].reference == reference
               && db.tickets[t].status == Pending && outcome.Some?
    {
      Settlement.DeliverPaysExactly(db, t, outcome.value);
    }
  }

  lemma CashTicket(db: Db, isOpen: bool, price: Option<int>, amount: nat, phone: string, reference: string, draw: Draw,
                   user: nat, shift: nat)
    ensures var r := Transactions.CashSale(db, isOpen, price, amount, phone, reference, draw, user, shift);
      r.Ok? ==>
        && r.value.1 == |db.tickets| && |r.value.0.tickets| == |db.tickets| + 1
        && r.value.0.tickets[|db.tickets|].status == Paid
  {
  }

  /** A transaction without effect keeps the invariant. */
  lemma {:induction false} NothingDone(db: Db)
    requires V.Valid(db)
    ensures V.Valid(db.(clock := db.clock + 1))
  {
    V.Untouched(db);
    V.TicketsOnlyKeeps(db, db.(clock := db.clock + 1));
  }
}
