/** What every transaction keeps: the plant's invariant and the one-way life of each ticket. */
module Validity {
  import opened Basics
  import opened Tables
  import opened Transactions
  import opened Runs

  // ---- one ticket ----

  /** How far a ticket is from the end of its life. */
  function Rank(s: Status): nat {
    match s
    case Pending => 3
    case Paid => 2
    case Dispensing => 1
    case _ => 0
  }

  /** The moves a status can make. */
  predicate Moves(a: Status, b: Status) {
    match a
    case Pending => b == Paid || b == Voided
    case Paid => b == Dispensing || b == Filled || b == Voided
    case Dispensing => b == Filled
    case _ => false
  }

  predicate Keeps<T(==)>(a: Option<T>, b: Option<T>) {
    a.Some? ==> b == a
  }

  predicate SameOrder(t: Ticket, u: Ticket) {
    && t.reference == u.reference && t.code == u.code && t.phone == u.phone
    && t.grams == u.grams && t.rate == u.rate && t.amount == u.amount
    && t.channel == u.channel && t.createdAt == u.createdAt
    && t.soldBy == u.soldBy && t.shift == u.shift
  }

  predicate SameEvidence(t: Ticket, u: Ticket) {
    && Keeps(t.paidAt, u.paidAt) && Keeps(t.pump, u.pump)
    && Keeps(t.startedAt, u.startedAt) && Keeps(t.startedBy, u.startedBy)
    && Keeps(t.filledAt, u.filledAt) && Keeps(t.filledShift, u.filledShift)
    && Keeps(t.closedBy, u.closedBy) && Keeps(t.closeNote, u.closeNote) && Keeps(t.netGrams, u.netGrams)
    && Keeps(t.voidedAt, u.voidedAt) && Keeps(t.voidedBy, u.voidedBy) && Keeps(t.voidReason, u.voidReason)
    && Keeps(t.confirmedAt, u.confirmedAt)
  }

  /** Row u is row t one transaction later. */
  predicate Advances(t: Ticket, u: Ticket) {
    && SameOrder(t, u) && SameEvidence(t, u)
    && (t.status == u.status || Moves(t.status, u.status))
    && (t.paidAt != u.paidAt ==> t.status == Pending && u.status == Paid)
  }

  /** Each status comes with its evidence and no other. */
  predicate Evident(t: Ticket) {
    && (t.status == Pending || t.status == Paid || t.status == Dispensing || t.status == Filled || t.status == Voided)
    && (t.status == Pending ==> t.paidAt == None && t.pump == None)
    && (Busy(t) || t.status == Filled ==> t.paidAt.Some?)
    && (t.status == Dispensing ==> t.startedAt.Some?)
    && (t.startedAt.Some? ==> t.status == Dispensing || t.status == Filled)
    && (t.startedAt.Some? <==> t.startedBy.Some?)
    && (t.status == Filled <==> t.filledAt.Some?)
    && (t.status == Filled <==> t.filledShift.Some?)
    && t.netGrams == (if t.status == Filled then Some(t.grams) else None)
    && (t.closedBy.Some? || t.closeNote.Some? ==> t.status == Filled)
    && (t.status == Voided <==> t.voidedAt.Some?)
    && (t.status == Voided <==> t.voidedBy.Some?)
    && (t.status == Voided <==> t.voidReason.Some?)
    && (t.confirmedAt.Some? ==> t.status == Filled)
    && (t.channel == Cash <==> t.shift.Some?)
    && (t.channel == Cash <==> t.soldBy.Some?)
    && (t.channel == Cash ==> t.paidAt.Some?)
    && t.grams > 0
  }

  /** b happened no earlier than a, and both before now. */
  predicate InOrder(a: Option<nat>, b: Option<nat>, now: nat) {
    && (b.Some? ==> b.value < now)
    && (a.Some? && b.Some? ==> a.value <= b.value)
  }

  predicate Timely(t: Ticket, now: nat) {
    && t.createdAt < now
    && InOrder(Some(t.createdAt), t.paidAt, now)
    && InOrder(t.paidAt, t.startedAt, now)
    && InOrder(t.startedAt, t.filledAt, now) && InOrder(t.paidAt, t.filledAt, now)
    && InOrder(t.filledAt, t.confirmedAt, now)
    && InOrder(Some(t.createdAt), t.voidedAt, now) && InOrder(t.paidAt, t.voidedAt, now)
  }

  predicate Refers(t: Ticket, shifts: nat, pumps: nat) {
    && (t.shift.Some? ==> t.shift.value < shifts)
    && (t.filledShift.Some? ==> t.filledShift.value < shifts)
    && (t.pump.Some? ==> t.pump.value < pumps)
  }

  predicate RowOk(t: Ticket, shifts: nat, pumps: nat, now: nat) {
    Evident(t) && Timely(t, now) && Refers(t, shifts, pumps)
  }

  // ---- all tickets ----

  ghost predicate RowsOk(ts: seq<Ticket>, shifts: nat, pumps: nat, now: nat) {
    forall i :: 0 <= i < |ts| ==> RowOk(ts[i], shifts, pumps, now)
  }

  /** An older holder of a code no longer needs it. */
  ghost predicate CodesOk(ts: seq<Ticket>) {
    forall i, j :: 0 <= i < j < |ts| && ts[i].code == ts[j].code ==> !Live(ts[i].status)
  }

  ghost predicate CreatedInOrder(ts: seq<Ticket>) {
    forall i, j :: 0 <= i < j < |ts| ==> ts[i].createdAt < ts[j].createdAt
  }

  ghost predicate ReferencesOk(ts: seq<Ticket>) {
    forall i, j :: 0 <= i < j < |ts| ==> ts[i].reference != ts[j].reference
  }

  ghost predicate TicketsOk(ts: seq<Ticket>, shifts: nat, pumps: nat, now: nat) {
    RowsOk(ts, shifts, pumps, now) && CodesOk(ts) && CreatedInOrder(ts) && ReferencesOk(ts)
  }

  /** Every old row is still there, one transaction later. */
  ghost predicate AllAdvance(ts: seq<Ticket>, us: seq<Ticket>) {
    |ts| <= |us| && forall i :: 0 <= i < |ts| ==> Advances(ts[i], us[i])
  }

  // ---- shifts ----

  ghost predicate OneOpenPerUser(ss: seq<Shift>) {
    forall i, j :: 0 <= i < j < |ss| && IsOpen(ss[i]) && IsOpen(ss[j]) ==> ss[i].user != ss[j].user
  }

  ghost predicate OpenPumpsDistinct(ss: seq<Shift>) {
    forall i, j :: 0 <= i < j < |ss| && IsOpen(ss[i]) && IsOpen(ss[j]) && ss[i].pump.Some? ==> ss[i].pump != ss[j].pump
  }

  ghost predicate ShiftRowsOk(ss: seq<Shift>, pumps: nat, now: nat) {
    forall i :: 0 <= i < |ss| ==>
      && (ss[i].pump.Some? ==> ss[i].pump.value < pumps)
      && ss[i].openedAt < now
      && (ss[i].closedAt.Some? <==> ss[i].closingCash.Some?)
      && (ss[i].closedAt.Some? ==> ss[i].openedAt <= ss[i].closedAt.value < now)
  }

  ghost predicate ShiftsOk(ss: seq<Shift>, pumps: nat, now: nat) {
    OneOpenPerUser(ss) && OpenPumpsDistinct(ss) && ShiftRowsOk(ss, pumps, now)
  }

  // ---- cash ----

  /** The amounts of a shift's movements of one kind, oldest first. */
  function Amounts(ms: seq<Movement>, s: nat, k: Kind): seq<int> {
    if ms == [] then []
    else
      var m := ms[|ms| - 1];
      Amounts(ms[..|ms| - 1], s, k) + (if m.shift == s && m.kind == k then [m.amount] else [])
  }

  /** The amounts of the cash tickets sold in a shift, oldest first. */
  function CashAmounts(ts: seq<Ticket>, s: nat): seq<int> {
    if ts == [] then []
    else
      var t := ts[|ts| - 1];
      CashAmounts(ts[..|ts| - 1], s) + (if t.channel == Cash && t.shift == Some(s) then [t.amount] else [])
  }

  /** One opening float, one closing count exactly when closed, and one sale movement for each cash ticket. */
  ghost predicate ShiftLedgerOk(db: Db, s: nat)
    requires s < |db.shifts|
  {
    && Amounts(db.movements, s, OpeningFloat) == [db.shifts[s].openingCash]
    && Amounts(db.movements, s, Closing)
      == (if db.shifts[s].closingCash.Some? then [db.shifts[s].closingCash.value] else [])
    && Amounts(db.movements, s, Sale) == CashAmounts(db.tickets, s)
  }

  ghost predicate LedgerOk(db: Db) {
    && (forall i :: 0 <= i < |db.movements| ==> db.movements[i].shift < |db.shifts|)
    && (forall s :: 0 <= s < |db.shifts| ==> ShiftLedgerOk(db, s))
  }

  /** The invariant of a plant's database. */
  ghost predicate Valid(db: Db) {
    && TicketsOk(db.tickets, |db.shifts|, |db.pumps|, db.clock)
    && ShiftsOk(db.shifts, |db.pumps|, db.clock)
    && LedgerOk(db)
  }

  // ---- tables keep the invariant when their rows advance ----

  lemma RowOkLater(t: Ticket, shifts: nat, pumps: nat, now: nat, shifts': nat, pumps': nat, now': nat)
    requires RowOk(t, shifts, pumps, now) && shifts <= shifts' && pumps <= pumps' && now <= now'
    ensures RowOk(t, shifts', pumps', now')
  {
  }

  lemma {:induction false} AdvancedOk(ts: seq<Ticket>, us: seq<Ticket>, shifts: nat, pumps: nat, now: nat,
                                      shifts': nat, pumps': nat, now': nat)
    requires TicketsOk(ts, shifts, pumps, now)
    requires |us| == |ts| && AllAdvance(ts, us) && RowsOk(us, shifts', pumps', now')
    ensures TicketsOk(us, shifts', pumps', now')
  {
    forall i, j | 0 <= i < j < |us| && us[i].code == us[j].code ensures !Live(us[i].status) {
      assert Advances(ts[i], us[i]) && Advances(ts[j], us[j]);
    }
    forall i, j | 0 <= i < j < |us| ensures us[i].createdAt < us[j].createdAt && us[i].reference != us[j].reference {
      assert Advances(ts[i], us[i]) && Advances(ts[j], us[j]);
    }
  }

  /** A row that the unique indexes let in, created now. */
  predicate Insertable(ts: seq<Ticket>, row: Ticket, now: nat) {
    row.createdAt == now && !CodeTaken(ts, row.code) && !ReferenceTaken(ts, row.reference)
  }

  lemma {:induction false} AppendedOk(ts: seq<Ticket>, row: Ticket, shifts: nat, pumps: nat, now: nat, pumps': nat)
    requires TicketsOk(ts, shifts, pumps, now) && pumps <= pumps'
    requires Insertable(ts, row, now) && RowOk(row, shifts, pumps', now + 1)
    ensures TicketsOk(ts + [row], shifts, pumps', now + 1)
  {
    var us := ts + [row];
    forall i | 0 <= i < |us| ensures RowOk(us[i], shifts, pumps', now + 1) {
      if i < |ts| {
        RowOkLater(ts[i], shifts, pumps, now, shifts, pumps', now + 1);
      }
    }
    forall i, j | 0 <= i < j < |us| ensures us[i].createdAt < us[j].createdAt && us[i].reference != us[j].reference {
      assert RowOk(ts[i], shifts, pumps, now);
    }
  }

  lemma {:induction false} CashAmountsSame(ts: seq<Ticket>, us: seq<Ticket>, s: nat)
    requires |us| == |ts| && AllAdvance(ts, us)
    ensures CashAmounts(us, s) == CashAmounts(ts, s)
  {
    if ts != [] {
      var i := |ts| - 1;
      assert Advances(ts[i], us[i]);
      CashAmountsSame(ts[..i], us[..i], s);
    }
  }

  lemma {:induction false} CashAmountsSnoc(ts: seq<Ticket>, t: Ticket, s: nat)
    ensures CashAmounts(ts + [t], s)
      == CashAmounts(ts, s) + (if t.channel == Cash && t.shift == Some(s) then [t.amount] else [])
  {
    assert (ts + [t])[..|ts|] == ts;
  }

  lemma {:induction false} AmountsSnoc(ms: seq<Movement>, m: Movement, s: nat, k: Kind)
    ensures Amounts(ms + [m], s, k) == Amounts(ms, s, k) + (if m.shift == s && m.kind == k then [m.amount] else [])
  {
    assert (ms + [m])[..|ms|] == ms;
  }

  lemma {:induction false} NoAmounts(ms: seq<Movement>, s: nat, k: Kind)
    requires forall i :: 0 <= i < |ms| ==> ms[i].shift < s
    ensures Amounts(ms, s, k) == []
  {
    if ms != [] {
      NoAmounts(ms[..|ms| - 1], s, k);
    }
  }

  lemma {:induction false} NoCashAmounts(ts: seq<Ticket>, s: nat)
    requires forall i :: 0 <= i < |ts| && ts[i].shift.Some? ==> ts[i].shift.value < s
    ensures CashAmounts(ts, s) == []
  {
    if ts != [] {
      NoCashAmounts(ts[..|ts| - 1], s);
    }
  }

  lemma ShiftsOkLater(ss: seq<Shift>, pumps: nat, now: nat, pumps': nat, now': nat)
    requires ShiftsOk(ss, pumps, now) && pumps <= pumps' && now <= now'
    ensures ShiftsOk(ss, pumps', now')
  {
  }

  // ---- the three shapes of a transaction ----

  /** Tickets advance in place and pumps may be added; nothing else changes. */
  ghost predicate TicketsOnly(db: Db, after: Db) {
    && |after.tickets| == |db.tickets| && AllAdvance(db.tickets, after.tickets)
    && RowsOk(after.tickets, |db.shifts|, |after.pumps|, db.clock + 1)
    && |db.pumps| <= |after.pumps|
    && after.shifts == db.shifts && after.movements == db.movements && after.clock == db.clock + 1
  }

  lemma TicketsOnlyKeeps(db: Db, after: Db)
    requires Valid(db) && TicketsOnly(db, after)
    ensures Valid(after)
  {
    AdvancedOk(db.tickets, after.tickets, |db.shifts|, |db.pumps|, db.clock, |db.shifts|, |after.pumps|, after.clock);
    ShiftsOkLater(db.shifts, |db.pumps|, db.clock, |after.pumps|, after.clock);
    forall s | 0 <= s < |after.shifts| ensures ShiftLedgerOk(after, s) {
      assert ShiftLedgerOk(db, s);
      CashAmountsSame(db.tickets, after.tickets, s);
    }
  }

  /** The movement recorded with cash ticket t. */
  function SaleOf(row: Ticket, t: nat): Movement
    requires row.shift.Some? && row.soldBy.Some?
  {
    Movement(row.shift.value, Sale, row.amount, None, Some(t), row.soldBy.value)
  }

  /** One ticket is added, with its sale movement exactly when it is a cash ticket. */
  ghost predicate TicketAdded(db: Db, after: Db) {
    && |after.tickets| == |db.tickets| + 1
    && var row := after.tickets[|db.tickets|];
       && after.tickets == db.tickets + [row]
       && Insertable(db.tickets, row, db.clock) && RowOk(row, |db.shifts|, |after.pumps|, db.clock + 1)
       && |db.pumps| <= |after.pumps| && after.shifts == db.shifts && after.clock == db.clock + 1
       && after.movements == db.movements + (if row.channel == Cash then [SaleOf(row, |db.tickets|)] else [])
  }

  lemma TicketAddedLedger(db: Db, after: Db, s: nat)
    requires Valid(db) && TicketAdded(db, after) && s < |db.shifts|
    ensures ShiftLedgerOk(after, s)
  {
    assert ShiftLedgerOk(db, s);
    var row := after.tickets[|db.tickets|];
    CashAmountsSnoc(db.tickets, row, s);
    if row.channel == Cash {
      forall k: Kind {
        AmountsSnoc(db.movements, SaleOf(row, |db.tickets|), s, k);
      }
    } else {
      assert after.movements == db.movements;
    }
  }

  lemma TicketAddedLedgers(db: Db, after: Db)
    requires Valid(db) && TicketAdded(db, after)
    ensures LedgerOk(after)
  {
    assert RowOk(after.tickets[|db.tickets|], |db.shifts|, |after.pumps|, db.clock + 1);
    forall s | 0 <= s < |after.shifts| ensures ShiftLedgerOk(after, s) {
      TicketAddedLedger(db, after, s);
    }
  }

  lemma TicketAddedKeeps(db: Db, after: Db)
    requires Valid(db) && TicketAdded(db, after)
    ensures Valid(after) && AllAdvance(db.tickets, after.tickets)
  {
    hide RowOk, CodesOk, CreatedInOrder, ReferencesOk, RowsOk, ShiftsOk, LedgerOk, Insertable, SaleOf;
    var row := after.tickets[|db.tickets|];
    AppendedOk(db.tickets, row, |db.shifts|, |db.pumps|, db.clock, |after.pumps|);
    ShiftsOkLater(db.shifts, |db.pumps|, db.clock, |after.pumps|, after.clock);
    TicketAddedLedgers(db, after);
    forall i | 0 <= i < |db.tickets| ensures Advances(db.tickets[i], after.tickets[i]) {
    }
  }

  /** A shift opens with its float. */
  ghost predicate ShiftOpened(db: Db, after: Db, row: Shift) {
    && after.tickets == db.tickets && after.pumps == db.pumps && after.clock == db.clock + 1
    && row.openedAt == db.clock && row.closedAt == None && row.closingCash == None
    && (row.pump.Some? ==> row.pump.value < |db.pumps|)
    && (forall i :: 0 <= i < |db.shifts| && IsOpen(db.shifts[i]) ==>
          db.shifts[i].user != row.user && (row.pump.Some? ==> db.shifts[i].pump != row.pump))
    && after.shifts == db.shifts + [row]
    && after.movements == db.movements + [Movement(|db.shifts|, OpeningFloat, row.openingCash, None, None, row.user)]
  }

  lemma ShiftOpenedLedger(db: Db, after: Db, row: Shift, s: nat)
    requires Valid(db) && ShiftOpened(db, after, row) && s < |after.shifts|
    ensures ShiftLedgerOk(after, s)
  {
    forall k: Kind {
      AmountsSnoc(db.movements, after.movements[|db.movements|], s, k);
    }
    if s < |db.shifts| {
      assert ShiftLedgerOk(db, s);
    } else {
      forall k: Kind ensures Amounts(db.movements, s, k) == [] {
        NoAmounts(db.movements, s, k);
      }
      forall i | 0 <= i < |db.tickets| && db.tickets[i].shift.Some? ensures db.tickets[i].shift.value < s {
        assert RowOk(db.tickets[i], |db.shifts|, |db.pumps|, db.clock);
      }
      NoCashAmounts(db.tickets, s);
    }
  }

  lemma {:induction false} TicketsOkLater(db: Db, after: Db)
    requires Valid(db) && after.tickets == db.tickets && |db.shifts| <= |after.shifts|
    requires |db.pumps| <= |after.pumps| && db.clock <= after.clock
    ensures TicketsOk(after.tickets, |after.shifts|, |after.pumps|, after.clock)
    ensures AllAdvance(db.tickets, after.tickets)
  {
    forall i | 0 <= i < |db.tickets| ensures RowOk(db.tickets[i], |after.shifts|, |after.pumps|, after.clock) {
      RowOkLater(db.tickets[i], |db.shifts|, |db.pumps|, db.clock, |after.shifts|, |after.pumps|, after.clock);
    }
  }

  lemma ShiftOpenedKeeps(db: Db, after: Db, row: Shift)
    requires Valid(db) && ShiftOpened(db, after, row)
    ensures Valid(after) && AllAdvance(db.tickets, after.tickets)
  {
    TicketsOkLater(db, after);
    forall s | 0 <= s < |after.shifts| ensures ShiftLedgerOk(after, s) {
      ShiftOpenedLedger(db, after, row, s);
    }
  }

  /** An open shift closes with its count. */
  ghost predicate ShiftClosed(db: Db, after: Db, s: nat, cash: int) {
    && s < |db.shifts| && IsOpen(db.shifts[s])
    && after.tickets == db.tickets && after.pumps == db.pumps && after.clock == db.clock + 1
    && after.shifts == db.shifts[s := db.shifts[s].(closedAt := Some(db.clock), closingCash := Some(cash))]
    && after.movements == db.movements + [Movement(s, Closing, cash, Some(cash), None, db.shifts[s].user)]
  }

  lemma ShiftClosedLedger(db: Db, after: Db, s: nat, cash: int, r: nat)
    requires Valid(db) && ShiftClosed(db, after, s, cash) && r < |after.shifts|
    ensures ShiftLedgerOk(after, r)
  {
    forall k: Kind {
      AmountsSnoc(db.movements, after.movements[|db.movements|], r, k);
    }
    assert ShiftLedgerOk(db, r);
  }

  lemma ShiftClosedKeeps(db: Db, after: Db, s: nat, cash: int)
    requires Valid(db) && ShiftClosed(db, after, s, cash)
    ensures Valid(after) && AllAdvance(db.tickets, after.tickets)
  {
    TicketsOkLater(db, after);
    forall r | 0 <= r < |after.shifts| ensures ShiftLedgerOk(after, r) {
      ShiftClosedLedger(db, after, s, cash, r);
    }
  }

  /** Pumps may change or be added, and a movement of a manual kind may be recorded. */
  ghost predicate SideStep(db: Db, after: Db) {
    && after.tickets == db.tickets && after.shifts == db.shifts && |db.pumps| <= |after.pumps|
    && after.clock == db.clock + 1
    && (after.movements == db.movements
        || (|after.movements| == |db.movements| + 1
            && var m := after.movements[|db.movements|];
               after.movements == db.movements + [m] && m.shift < |db.shifts| && m.kind in {Deposit, Payout, Count}))
  }

  lemma SideStepKeeps(db: Db, after: Db)
    requires Valid(db) && SideStep(db, after)
    ensures Valid(after) && AllAdvance(db.tickets, after.tickets)
  {
    TicketsOkLater(db, after);
    ShiftsOkLater(db.shifts, |db.pumps|, db.clock, |after.pumps|, after.clock);
    forall s | 0 <= s < |after.shifts| ensures ShiftLedgerOk(after, s) {
      assert ShiftLedgerOk(db, s);
      if after.movements != db.movements {
        forall k: Kind {
          AmountsSnoc(db.movements, after.movements[|db.movements|], s, k);
        }
      }
    }
  }

  // ---- every transaction has one of these shapes ----

  /** One row is replaced. */
  lemma {:induction false} RowReplaced(db: Db, t: nat, row: Ticket, pumps: seq<Pump>)
    requires Valid(db) && t < |db.tickets| && |db.pumps| <= |pumps|
    requires Advances(db.tickets[t], row) && RowOk(row, |db.shifts|, |pumps|, db.clock + 1)
    ensures TicketsOnly(db, db.(tickets := db.tickets[t := row], pumps := pumps, clock := db.clock + 1))
  {
    var after := db.(tickets := db.tickets[t := row], pumps := pumps, clock := db.clock + 1);
    forall i | 0 <= i < |db.tickets|
      ensures Advances(db.tickets[i], after.tickets[i]) && RowOk(after.tickets[i], |db.shifts|, |pumps|, db.clock + 1)
    {
      RowOkLater(db.tickets[i], |db.shifts|, |db.pumps|, db.clock, |db.shifts|, |pumps|, db.clock + 1);
    }
  }

  /** The code a purchase settles on passes every constraint. */
  lemma {:induction false} ChosenCodeInserts(db: Db, o: Order, draw: Draw, attempt: nat)
    ensures var c := ChosenCode(db, o, draw, attempt);
      c.Some? ==> TryInsert(db, NewTicket(o, c.value, db.clock)) == Inserted
    decreases MAX_CODE_ATTEMPTS - attempt
  {
    if attempt < MAX_CODE_ATTEMPTS && attempt < |draw.codes| {
      ChosenCodeInserts(db, o, draw, attempt + 1);
    }
  }

  lemma {:induction false} BuyOnlineShape(db: Db, isOpen: bool, price: Option<int>, amount: nat, channel: Channel,
                      phone: string, reference: string, draw: Draw)
    requires Valid(db)
    ensures var r := Transactions.BuyOnline(db, isOpen, price, amount, channel, phone, reference, draw);
      r == db || TicketAdded(db, r.(clock := db.clock + 1))
  {
    if isOpen && price.Some? && price.value > 0 && GramsFromAmount(amount, price.value) > 0 && channel != Cash {
      var o := Order(reference, phone, GramsFromAmount(amount, price.value), price.value, amount, channel,
                     false, None, None);
      ChosenCodeInserts(db, o, draw, 0);
    }
  }

  /** What assignment does to the ticket's row: at most fill in an empty pump column. */
  function AssignedRow(db: Db, t: nat): (row: Ticket)
    requires t < |db.tickets|
    ensures row.pump.Some? && db.tickets[t].pump.None? ==> row.pump.value < |EnsureDefault(db.pumps)|
  {
    var row, pumps := db.tickets[t], EnsureDefault(db.pumps);
    if row.pump.Some? then row else row.(pump := LeastBusy(db.tickets, pumps, |pumps|))
  }

  lemma {:induction false} AssignmentRow(db: Db, t: nat)
    requires t < |db.tickets|
    ensures AssignLeastBusy(db, t).0
         == db.(pumps := EnsureDefault(db.pumps), tickets := db.tickets[t := AssignedRow(db, t)])
  {
    assert db.tickets[t := db.tickets[t]] == db.tickets;
    assert db.tickets[t].pump.None? ==> db.tickets[t].(pump := None) == db.tickets[t];
  }

  lemma {:induction false} CashSaleShape(db: Db, isOpen: bool, price: Option<int>, amount: nat, phone: string,
                      reference: string, draw: Draw, user: nat, shift: nat)
    requires Valid(db)
    ensures var r := Transactions.CashSale(db, isOpen, price, amount, phone, reference, draw, user, shift);
      r.Ok? ==> r.value.1 == |db.tickets| && TicketAdded(db, r.value.0.(clock := db.clock + 1))
  {
    if isOpen && price.Some? && price.value > 0 && GramsFromAmount(amount, price.value) > 0 {
      var o := Order(reference, phone, GramsFromAmount(amount, price.value), price.value, amount, Cash,
                     true, Some(user), Some(shift));
      ChosenCodeInserts(db, o, draw, 0);
      var c := ChosenCode(db, o, draw, 0);
      if c.Some? {
        var sold := db.(tickets := db.tickets + [NewTicket(o, c.value, db.clock)]);
        AssignmentRow(sold, |db.tickets|);
        assert sold.tickets[|db.tickets| := AssignedRow(sold, |db.tickets|)]
          == db.tickets + [AssignedRow(sold, |db.tickets|)];
      }
    }
  }

  lemma PaidRowOk(row: Ticket, shifts: nat, pumps: nat, now: nat)
    requires RowOk(row, shifts, pumps, now) && row.status == Pending
    ensures var paid := row.(status := Paid, paidAt := Some(now));
      Advances(row, paid) && RowOk(paid, shifts, pumps, now + 1)
  {
  }

  /** A paid ticket that gets a pump, or stays without one. */
  lemma {:induction false} AssignShape(db: Db, paid: Db, t: nat)
    requires Valid(db) && t < |db.tickets| && |paid.tickets| == |db.tickets|
    requires paid == db.(tickets := db.tickets[t := paid.tickets[t]])
    requires Advances(db.tickets[t], paid.tickets[t]) && RowOk(paid.tickets[t], |db.shifts|, |db.pumps|, db.clock + 1)
    requires paid.tickets[t].status != Pending
    ensures TicketsOnly(db, AssignLeastBusy(paid, t).0.(clock := db.clock + 1))
  {
    hide Valid, AssignLeastBusy, LeastBusy, TicketsOnly, AssignedRow, Advances, RowOk;
    AssignmentRow(paid, t);
    var row, pumps := AssignedRow(paid, t), EnsureDefault(db.pumps);
    AssignedRowOk(db, paid, t);
    assert paid.tickets[t := row] == db.tickets[t := row];
    RowReplaced(db, t, row, pumps);
  }

  lemma AssignedRowOk(db: Db, paid: Db, t: nat)
    requires t < |db.tickets| && t < |paid.tickets| && paid.pumps == db.pumps
    requires Advances(db.tickets[t], paid.tickets[t]) && RowOk(paid.tickets[t], |db.shifts|, |db.pumps|, db.clock + 1)
    requires paid.tickets[t].status != Pending
    ensures var row := AssignedRow(paid, t);
      Advances(db.tickets[t], row) && RowOk(row, |db.shifts|, |EnsureDefault(db.pumps)|, db.clock + 1)
  {
  }

  lemma {:induction false} DeliverShape(db: Db, reference: string, outcome: Option<Verification>)
    requires Valid(db)
    ensures TicketsOnly(db, Transactions.Deliver(db, reference, outcome).(clock := db.clock + 1))
  {
    Untouched(db);
    RowsFine(db);
    hide AssignLeastBusy, TicketsOnly, Advances, Valid, RowOk;
    var t := FindReference(db.tickets, reference);
    if t < |db.tickets| && outcome.Some? && Confirms(outcome.value, db.tickets[t].amount) {
      var row := db.tickets[t];
      if row.status == Pending {
        PaidRowOk(row, |db.shifts|, |db.pumps|, db.clock);
        AssignShape(db, db.(tickets := db.tickets[t := row.(status := Paid, paidAt := Some(db.clock))]), t);
      } else if row.status == Paid || row.status == Dispensing || row.status == Filled {
        assert db.tickets[t := row] == db.tickets;
        StillRowOk(row, |db.shifts|, |db.pumps|, db.clock);
        AssignShape(db, db, t);
      }
    }
  }

  lemma RowsFine(db: Db)
    requires Valid(db)
    ensures forall i :: 0 <= i < |db.tickets| ==> RowOk(db.tickets[i], |db.shifts|, |db.pumps|, db.clock)
  {
  }

  lemma StillRowOk(row: Ticket, shifts: nat, pumps: nat, now: nat)
    requires RowOk(row, shifts, pumps, now)
    ensures Advances(row, row) && RowOk(row, shifts, pumps, now + 1)
  {
  }

  lemma {:induction false} Untouched(db: Db)
    requires Valid(db)
    ensures TicketsOnly(db, db.(clock := db.clock + 1))
  {
    forall i | 0 <= i < |db.tickets| ensures RowOk(db.tickets[i], |db.shifts|, |db.pumps|, db.clock + 1) {
      RowOkLater(db.tickets[i], |db.shifts|, |db.pumps|, db.clock, |db.shifts|, |db.pumps|, db.clock + 1);
    }
  }

  lemma {:induction false} StartDispensingShape(db: Db, t: nat, actor: nat)
    requires Valid(db)
    ensures var r := Transactions.StartDispensing(db, t, actor);
      r.Ok? ==> TicketsOnly(db, r.value.(clock := db.clock + 1))
  {
    if t < |db.tickets| && db.tickets[t].status == Paid {
      assert RowOk(db.tickets[t], |db.shifts|, |db.pumps|, db.clock);
      RowReplaced(db, t, StartedRow(db.tickets[t], db.clock, actor), db.pumps);
    }
  }

  lemma FilledRowOk(row: Ticket, shifts: nat, pumps: nat, now: nat, shift: nat, actor: nat, note: Option<string>)
    requires RowOk(row, shifts, pumps, now) && Busy(row) && shift < shifts
    ensures var filled := FilledRow(row, now, shift); Advances(row, filled) && RowOk(filled, shifts, pumps, now + 1)
    ensures var closed := ClosedRow(row, now, shift, actor, note);
      Advances(row, closed) && RowOk(closed, shifts, pumps, now + 1)
  {
  }

  lemma {:induction false} CloseFilledShape(db: Db, t: nat, shift: nat, actor: nat, note: Option<string>)
    requires Valid(db)
    ensures var r := Transactions.CloseFilled(db, t, shift, actor, note);
      r.Ok? ==> TicketsOnly(db, r.value.(clock := db.clock + 1))
    ensures var r := Transactions.Fill(db, t, shift); r.Ok? ==> TicketsOnly(db, r.value.(clock := db.clock + 1))
  {
    if t < |db.tickets| && Busy(db.tickets[t]) && shift < |db.shifts| {
      var row := db.tickets[t];
      assert RowOk(row, |db.shifts|, |db.pumps|, db.clock);
      FilledRowOk(row, |db.shifts|, |db.pumps|, db.clock, shift, actor, note);
      RowReplaced(db, t, ClosedRow(row, db.clock, shift, actor, note), db.pumps);
      RowReplaced(db, t, FilledRow(row, db.clock, shift), db.pumps);
    }
  }

  lemma {:induction false} QueueEmpty(ts: seq<Ticket>, n: nat, pump: nat)
    requires n <= |ts|
    ensures QueueLength(ts, n, pump) == 0 <==> forall i :: 0 <= i < n ==> !Queued(ts[i], pump)
  {
    if n > 0 {
      QueueEmpty(ts, n - 1, pump);
    }
  }

  lemma BulkCloseShape(db: Db, pump: nat, shift: nat, actor: nat, note: Option<string>)
    requires Valid(db)
    ensures var r := Transactions.BulkCloseFilled(db, pump, shift, actor, note);
      r.Ok? ==> TicketsOnly(db, r.value.0.(clock := db.clock + 1))
  {
    QueueEmpty(db.tickets, |db.tickets|, pump);
    var rows := BulkClosedRows(db.tickets, |db.tickets|, pump, db.clock, shift, actor, note);
    if Transactions.BulkCloseFilled(db, pump, shift, actor, note).Ok? {
      forall i | 0 <= i < |db.tickets|
        ensures Advances(db.tickets[i], rows[i]) && RowOk(rows[i], |db.shifts|, |db.pumps|, db.clock + 1)
      {
        var row := db.tickets[i];
        if Queued(row, pump) {
          FilledRowOk(row, |db.shifts|, |db.pumps|, db.clock, shift, actor, note);
        } else {
          RowOkLater(row, |db.shifts|, |db.pumps|, db.clock, |db.shifts|, |db.pumps|, db.clock + 1);
        }
      }
    }
  }

  lemma {:induction false} VoidShape(db: Db, reference: string, actor: nat, reason: string)
    requires Valid(db)
    ensures var r := Transactions.Void(db, reference, actor, reason);
      r.Ok? ==> TicketsOnly(db, r.value.(clock := db.clock + 1))
  {
    var t := FindReference(db.tickets, reference);
    if t < |db.tickets| && (db.tickets[t].status == Pending || db.tickets[t].status == Paid) {
      var row := db.tickets[t];
      assert RowOk(row, |db.shifts|, |db.pumps|, db.clock);
      var voided := row.(status := Voided, voidReason := Some(reason),
                         voidedBy := Some(actor), voidedAt := Some(db.clock));
      RowReplaced(db, t, voided, db.pumps);
    }
  }

  lemma {:induction false} ConfirmShape(db: Db, reference: string, phone: string)
    requires Valid(db)
    ensures var r := Transactions.Confirm(db, reference, phone);
      r.Ok? ==> TicketsOnly(db, r.value.(clock := db.clock + 1))
  {
    Untouched(db);
    var t := FindReference(db.tickets, reference);
    if t < |db.tickets| && db.tickets[t].status == Filled && db.tickets[t].confirmedAt.None? {
      assert RowOk(db.tickets[t], |db.shifts|, |db.pumps|, db.clock);
      RowReplaced(db, t, db.tickets[t].(confirmedAt := Some(db.clock)), db.pumps);
    }
  }

  lemma {:induction false} StartShiftShape(db: Db, user: nat, cash: int, at: Option<nat>)
    requires Valid(db)
    ensures var r := Transactions.StartShift(db, user, cash, at);
      r.Ok? ==>
        (r.value.0 == db
         || ShiftOpened(db, r.value.0.(clock := db.clock + 1), Shift(user, at, db.clock, cash, None, None)))
  {
    var r := Transactions.StartShift(db, user, cash, at);
    if r.Ok? && r.value.0 != db && at.Some? {
      assert !OccupiedByOther(db.shifts, at.value, user);
    }
  }

  // ---- every step, every run ----

  /** The invariant holds after a transaction and every ticket has advanced. */
  ghost predicate Kept(db: Db, after: Db) {
    Valid(after) && AllAdvance(db.tickets, after.tickets)
  }

  lemma UntouchedKept(db: Db)
    requires Valid(db)
    ensures Kept(db, db.(clock := db.clock + 1))
  {
    Untouched(db);
    TicketsOnlyKeeps(db, db.(clock := db.clock + 1));
  }

  lemma SaleKept(db: Db, s: Step)
    requires Valid(db) && (s.BuyOnline? || s.CashSale?)
    ensures Kept(db, Apply(db, s))
  {
    hide Valid, AllAdvance, TicketAdded, Transactions.BuyOnline, Transactions.CashSale;
    match s {
      case BuyOnline(isOpen, price, amount, channel, phone, reference, draw) =>
        BuyOnlineShape(db, isOpen, price, amount, channel, phone, reference, draw);
      case CashSale(isOpen, price, amount, phone, reference, draw, user, shift) =>
        CashSaleShape(db, isOpen, price, amount, phone, reference, draw, user, shift);
      case _ =>
    }
    if Effect(db, s) == db { UntouchedKept(db); } else { TicketAddedKeeps(db, Apply(db, s)); }
  }

  lemma ShiftKept(db: Db, s: Step)
    requires Valid(db) && (s.StartShift? || s.CloseShift?)
    ensures Kept(db, Apply(db, s))
  {
    hide Valid, AllAdvance, Transactions.StartShift, ShiftOpened;
    if Effect(db, s) == db {
      UntouchedKept(db);
    } else {
      match s {
        case StartShift(user, cash, at) =>
          StartShiftShape(db, user, cash, at);
          ShiftOpenedKeeps(db, Apply(db, s), Shift(user, at, db.clock, cash, None, None));
        case CloseShift(i, user, cash) => ShiftClosedKeeps(db, Apply(db, s), i, cash);
        case _ =>
      }
    }
  }

  lemma SideKept(db: Db, s: Step)
    requires Valid(db) && (s.RecordCashMovement? || s.UpsertPump? || s.ListPumps?)
    ensures Kept(db, Apply(db, s))
  {
    hide Valid, AllAdvance;
    SideStepKeeps(db, Apply(db, s));
  }

  /** One transaction, committed or not, keeps the invariant and advances every ticket. */
  lemma {:induction false} StepKeeps(db: Db, s: Step)
    requires Valid(db)
    ensures Valid(Apply(db, s)) && AllAdvance(db.tickets, Apply(db, s).tickets)
  {
    hide Valid, AllAdvance, Apply;
    match s
    case BuyOnline(_, _, _, _, _, _, _) => SaleKept(db, s);
    case CashSale(_, _, _, _, _, _, _, _) => SaleKept(db, s);
    case StartShift(_, _, _) => ShiftKept(db, s);
    case CloseShift(_, _, _) => ShiftKept(db, s);
    case RecordCashMovement(_, _, _, _, _) => SideKept(db, s);
    case UpsertPump(_, _, _, _) => SideKept(db, s);
    case ListPumps => SideKept(db, s);
    case _ => TicketStepKeeps(db, s);
  }

  lemma {:induction false} TicketStepKeeps(db: Db, s: Step)
    requires Valid(db)
    requires s.Deliver? || s.StartDispensing? || s.CloseFilled? || s.BulkCloseFilled? || s.Fill?
      || s.Void? || s.Confirm?
    ensures TicketsOnly(db, Apply(db, s)) && Valid(Apply(db, s))
  {
    Untouched(db);
    match s {
      case Deliver(reference, outcome) => DeliverShape(db, reference, outcome);
      case StartDispensing(t, actor) => StartDispensingShape(db, t, actor);
      case CloseFilled(t, shift, actor, note) => CloseFilledShape(db, t, shift, actor, note);
      case BulkCloseFilled(pump, shift, actor, note) => BulkCloseShape(db, pump, shift, actor, note);
      case Fill(t, shift) => CloseFilledShape(db, t, shift, 0, None);
      case Void(reference, actor, reason) => VoidShape(db, reference, actor, reason);
      case Confirm(reference, phone) => ConfirmShape(db, reference, phone);
      case _ =>
    }
    TicketsOnlyKeeps(db, Apply(db, s));
  }

  lemma InitialValid(pumps: seq<Pump>)
    ensures Valid(Initial(pumps))
  {
  }

  /** The invariant holds after every run. */
  lemma {:induction false} RunKeeps(db: Db, steps: seq<Step>)
    requires Valid(db)
    ensures Valid(Run(db, steps))
  {
    if steps != [] {
      RunKeeps(db, steps[..|steps| - 1]);
      StepKeeps(Run(db, steps[..|steps| - 1]), steps[|steps| - 1]);
    }
  }
}
