/**
 The bodies of the plant's transactions as functions from one database state to the next. A body
 that fails leaves the state it was given.
 */
module Transactions {
  import opened Basics
  import opened Strings
  import opened Tables

  // ---- creating tickets ----

  const MAX_CODE_ATTEMPTS: nat := 6

  datatype Order = Order(
    reference: string,
    phone: string,
    grams: int,
    rate: int,
    amount: int,
    channel: Channel,
    paid: bool,
    soldBy: Option<nat>,
    shift: Option<nat>)

  function NewTicket(o: Order, code: string, now: nat): Ticket {
    Ticket(o.reference, code, o.phone, o.grams, o.rate, o.amount, o.channel,
           if o.paid then Paid else Pending, now, if o.paid then Some(now) else None,
           o.soldBy, o.shift, None, None, None, None, None, None, None, None, None, None, None, None)
  }

  datatype InsertResult = Inserted | UniqueViolation | Refused

  /** The table's constraints, in the order the database applies them. */
  function TryInsert(db: Db, row: Ticket): InsertResult {
    if row.grams <= 0 then Refused
    else if CodeTaken(db.tickets, row.code) || ReferenceTaken(db.tickets, row.reference) then UniqueViolation
    else if row.shift.Some? && row.shift.value >= |db.shifts| then Refused
    else Inserted
  }

  /**
   The outside influences on one purchase: the codes the random source yields, in order (running
   out means it failed), and whether the database refuses further statements of a transaction
   after a unique violation.
   */
  datatype Draw = Draw(codes: seq<string>, poisons: bool)

  /** The code of the ticket a purchase inserts from the given attempt on, or none. */
  function ChosenCode(db: Db, o: Order, draw: Draw, attempt: nat): Option<string>
    decreases MAX_CODE_ATTEMPTS - attempt
  {
    if attempt >= MAX_CODE_ATTEMPTS || attempt >= |draw.codes| then None
    else
      match TryInsert(db, NewTicket(o, draw.codes[attempt], db.clock))
      case Inserted => Some(draw.codes[attempt])
      case UniqueViolation => if draw.poisons then None else ChosenCode(db, o, draw, attempt + 1)
      case Refused => None
  }

  /** Inserts one ticket, or none when no attempt succeeds. */
  function Purchase(db: Db, o: Order, draw: Draw): (r: (Db, Option<nat>))
    ensures r.1.Some? ==> r.1.value < |r.0.tickets|
    ensures r.1.None? ==> r.0 == db
  {
    match ChosenCode(db, o, draw, 0)
    case None => (db, None)
    case Some(code) => (db.(tickets := db.tickets + [NewTicket(o, code, db.clock)]), Some(|db.tickets|))
  }

  // ---- pumps ----

  function EnsureDefault(pumps: seq<Pump>): seq<Pump> {
    if pumps == [] then [Pump("Pump 1", Working, 1)] else pumps
  }

  /** Pump p is served before pump q: fewer busy tickets, then smaller sort order, then older. */
  predicate Before(ts: seq<Ticket>, pumps: seq<Pump>, p: nat, q: nat)
    requires p < |pumps| && q < |pumps|
  {
    var a, b := Load(ts, p), Load(ts, q);
    || a < b
    || (a == b && pumps[p].sortOrder < pumps[q].sortOrder)
    || (a == b && pumps[p].sortOrder == pumps[q].sortOrder && p < q)
  }

  /** The working pump among the first n that no other goes before. */
  function LeastBusy(ts: seq<Ticket>, pumps: seq<Pump>, n: nat): (r: Option<nat>)
    requires n <= |pumps|
    ensures r.Some? ==> r.value < n && pumps[r.value].status == Working
  {
    if n == 0 then None
    else
      var best := LeastBusy(ts, pumps, n - 1);
      if pumps[n - 1].status == Working && (best.None? || Before(ts, pumps, n - 1, best.value)) then Some(n - 1)
      else best
  }

  /** Gives ticket t the least busy pump unless it already has one; the pump it ends up with, if any. */
  function AssignLeastBusy(db: Db, t: nat): (Db, Option<nat>) {
    var pumps := EnsureDefault(db.pumps);
    var best := LeastBusy(db.tickets, pumps, |pumps|);
    if t >= |db.tickets| then (db.(pumps := pumps), None)
    else if db.tickets[t].pump.Some? then (db.(pumps := pumps), db.tickets[t].pump)
    else if best.None? then (db.(pumps := pumps), None)
    else (db.(pumps := pumps, tickets := db.tickets[t := db.tickets[t].(pump := best)]), best)
  }

  /** The name as stored: trimmed, and never blank. */
  function PumpName(name: string): string {
    if TrimSpace(name) == "" then "Pump 1" else TrimSpace(name)
  }

  function SortOrderOrOne(sortOrder: int): int {
    if sortOrder <= 0 then 1 else sortOrder
  }

  /** Another pump than `except` has this name; names are unique in a plant. */
  predicate NameTaken(pumps: seq<Pump>, name: string, except: Option<nat>) {
    exists i :: 0 <= i < |pumps| && pumps[i].name == name && except != Some(i)
  }

  function UpsertPump(db: Db, id: Option<nat>, name: string, status: PumpStatus, sortOrder: int): Db {
    var row := Pump(PumpName(name), status, SortOrderOrOne(sortOrder));
    if NameTaken(db.pumps, row.name, id) then db
    else
      match id
      case None => db.(pumps := db.pumps + [row])
      case Some(p) => if p < |db.pumps| then db.(pumps := db.pumps[p := row]) else db
  }

  // ---- the ticket's life ----

  /** No status guard on the write: the read in the same transaction is the guard. */
  function MarkPaid(db: Db, t: nat): Result<(Db, bool), ()> {
    if t >= |db.tickets| then Err(())
    else
      match db.tickets[t].status
      case Paid | Dispensing | Filled => Ok((db, true))
      case Pending =>
        Ok((db.(tickets := db.tickets[t := db.tickets[t].(status := Paid, paidAt := Some(db.clock))]), true))
      case _ => Ok((db, false))
  }

  datatype Verification = Verification(status: string, amount: int, currency: string)

  /** The gateway confirms a payment of exactly this amount in naira. */
  predicate Confirms(v: Verification, amount: int) {
    v.status == "success" && v.amount == amount && (v.currency == "" || v.currency == "NGN")
  }

  /**
   The transaction shared by the webhook and the browser callback; None when the gateway could not
   be asked. A ticket that no pump can take stays without one.
   */
  function Deliver(db: Db, reference: string, outcome: Option<Verification>): Db {
    var t := FindReference(db.tickets, reference);
    if t == |db.tickets| || outcome.None? || !Confirms(outcome.value, db.tickets[t].amount) then db
    else
      match MarkPaid(db, t)
      case Ok((paid, true)) => AssignLeastBusy(paid, t).0
      case _ => db
  }

  function StartedRow(row: Ticket, now: nat, actor: nat): Ticket {
    row.(status := Dispensing, startedAt := Some(now), startedBy := Some(actor))
  }

  function StartDispensing(db: Db, t: nat, actor: nat): Result<Db, ()> {
    if t < |db.tickets| && db.tickets[t].status == Paid then
      Ok(db.(tickets := db.tickets[t := StartedRow(db.tickets[t], db.clock, actor)]))
    else Err(())
  }

  function FilledRow(row: Ticket, now: nat, shift: nat): Ticket {
    row.(status := Filled, filledAt := Some(now), filledShift := Some(shift),
         netGrams := if row.netGrams.None? then Some(row.grams) else row.netGrams)
  }

  function ClosedRow(row: Ticket, now: nat, shift: nat, actor: nat, note: Option<string>): Ticket {
    FilledRow(row, now, shift).(closedBy := Some(actor), closeNote := note)
  }

  function CloseFilled(db: Db, t: nat, shift: nat, actor: nat, note: Option<string>): Result<Db, ()> {
    if t < |db.tickets| && db.tickets[t].status == Dispensing && shift < |db.shifts| then
      Ok(db.(tickets := db.tickets[t := ClosedRow(db.tickets[t], db.clock, shift, actor, note)]))
    else Err(())
  }

  predicate Queued(row: Ticket, pump: nat) {
    row.pump == Some(pump) && row.status == Dispensing
  }

  /** The first n rows with those queued at the pump closed. */
  function BulkClosedRows(ts: seq<Ticket>, n: nat, pump: nat, now: nat, shift: nat, actor: nat,
                          note: Option<string>): (r: seq<Ticket>)
    requires n <= |ts|
    ensures |r| == |ts|
    ensures forall i :: 0 <= i < |ts| ==>
      r[i] == if i < n && Queued(ts[i], pump) then ClosedRow(ts[i], now, shift, actor, note) else ts[i]
  {
    seq(|ts|, i requires 0 <= i < |ts| =>
      if i < n && Queued(ts[i], pump) then ClosedRow(ts[i], now, shift, actor, note) else ts[i])
  }

  function QueueLength(ts: seq<Ticket>, n: nat, pump: nat): (r: nat)
    requires n <= |ts|
    ensures r <= n
  {
    if n == 0 then 0 else QueueLength(ts, n - 1, pump) + (if Queued(ts[n - 1], pump) then 1 else 0)
  }

  /** Closes everything queued at a pump; the count of tickets closed. The shift must exist if any row names it. */
  function BulkCloseFilled(db: Db, pump: nat, shift: nat, actor: nat, note: Option<string>): Result<(Db, nat), ()> {
    var n := QueueLength(db.tickets, |db.tickets|, pump);
    if n > 0 && shift >= |db.shifts| then Err(())
    else
      Ok((db.(tickets := BulkClosedRows(db.tickets, |db.tickets|, pump, db.clock, shift, actor, note)), n))
  }

  /** The older one-step path from paid or dispensing to filled. */
  function Fill(db: Db, t: nat, shift: nat): Result<Db, ()> {
    if t < |db.tickets| && Busy(db.tickets[t]) && shift < |db.shifts| then
      Ok(db.(tickets := db.tickets[t := FilledRow(db.tickets[t], db.clock, shift)]))
    else Err(())
  }

  function Void(db: Db, reference: string, actor: nat, reason: string): Result<Db, ()> {
    var t := FindReference(db.tickets, reference);
    if t < |db.tickets| && (db.tickets[t].status == Pending || db.tickets[t].status == Paid) then
      Ok(db.(tickets := db.tickets[t := db.tickets[t].(status := Voided, voidReason := Some(reason),
                                                       voidedBy := Some(actor), voidedAt := Some(db.clock))]))
    else Err(())
  }

  function Confirm(db: Db, reference: string, phone: string): Result<Db, ()> {
    var t := FindReference(db.tickets, reference);
    if t == |db.tickets| || db.tickets[t].phone != phone || db.tickets[t].status != Filled then Err(())
    else if db.tickets[t].confirmedAt.Some? then Ok(db)
    else Ok(db.(tickets := db.tickets[t := db.tickets[t].(confirmedAt := Some(db.clock))]))
  }

  // ---- redeeming ----

  datatype RedeemError = CodeNotFound | AlreadyRedeemed | NotPayable

  /** The newest of the first n rows with this code, by creation time. */
  function Newest(ts: seq<Ticket>, n: nat, code: string): (r: Option<nat>)
    requires n <= |ts|
    ensures r.Some? ==> r.value < n && ts[r.value].code == code
  {
    if n == 0 then None
    else
      var best := Newest(ts, n - 1, code);
      if ts[n - 1].code == code && (best.None? || ts[best.value].createdAt < ts[n - 1].createdAt) then Some(n - 1)
      else best
  }

  function Redeem(ts: seq<Ticket>, code: string): (r: Result<nat, RedeemError>)
    ensures r.Ok? ==> r.value < |ts|
  {
    var t := Newest(ts, |ts|, code);
    if t.None? then Err(CodeNotFound)
    else
      match ts[t.value].status
      case Paid => Ok(t.value)
      case Dispensing | Filled => Err(AlreadyRedeemed)
      case _ => Err(NotPayable)
  }

  // ---- shifts and cash ----

  predicate IsOpen(s: Shift) {
    s.closedAt.None?
  }

  /** Position of the first open shift of a user, or the number of shifts. */
  function FindOpen(ss: seq<Shift>, user: nat): (r: nat)
    ensures r <= |ss|
    ensures r < |ss| ==> ss[r].user == user && IsOpen(ss[r])
    ensures forall i :: 0 <= i < r ==> !(ss[i].user == user && IsOpen(ss[i]))
  {
    if ss == [] || (ss[0].user == user && IsOpen(ss[0])) then 0 else 1 + FindOpen(ss[1..], user)
  }

  datatype PumpError = PumpNotFound | NoWorkingPump | PumpBusy

  predicate OccupiedByOther(ss: seq<Shift>, pump: nat, user: nat) {
    exists i :: 0 <= i < |ss| && ss[i].pump == Some(pump) && ss[i].user != user && IsOpen(ss[i])
  }

  function ValidateShiftPump(db: Db, pump: nat, user: nat): Result<(), PumpError> {
    if pump >= |db.pumps| then Err(PumpNotFound)
    else if db.pumps[pump].status != Working then Err(NoWorkingPump)
    else if OccupiedByOther(db.shifts, pump, user) then Err(PumpBusy)
    else Ok(())
  }

  /** Resumes the user's open shift or opens one with its opening float. */
  function StartOrResume(db: Db, user: nat, openingCash: int, pump: Option<nat>): (Db, nat) {
    var s := FindOpen(db.shifts, user);
    if s < |db.shifts| then (db, s)
    else
      (db.(shifts := db.shifts + [Shift(user, pump, db.clock, openingCash, None, None)],
           movements := db.movements + [Movement(|db.shifts|, OpeningFloat, openingCash, None, None, user)]),
       |db.shifts|)
  }

  function StartShift(db: Db, user: nat, openingCash: int, pump: Option<nat>): Result<(Db, nat), PumpError> {
    if pump.Some? && ValidateShiftPump(db, pump.value, user).Err? then
      Err(ValidateShiftPump(db, pump.value, user).error)
    else Ok(StartOrResume(db, user, openingCash, pump))
  }

  function CloseShift(db: Db, s: nat, user: nat, closingCash: int): Result<Db, ()> {
    if s < |db.shifts| && db.shifts[s].user == user && IsOpen(db.shifts[s]) then
      Ok(db.(shifts := db.shifts[s := db.shifts[s].(closedAt := Some(db.clock), closingCash := Some(closingCash))],
             movements := db.movements + [Movement(s, Closing, closingCash, Some(closingCash), None, user)]))
    else Err(())
  }

  function RecordCashMovement(db: Db, s: nat, kind: Kind, amount: int, counted: Option<int>,
                              recordedBy: nat): Result<Db, ()>
  {
    if kind !in {Deposit, Payout, Count} || s >= |db.shifts| then Err(())
    else Ok(db.(movements := db.movements + [Movement(s, kind, amount, counted, None, recordedBy)]))
  }

  // ---- sales ----

  /** Round half up, on non-negative quotients: what math.Round does there. */
  function RoundDiv(n: nat, d: nat): nat
    requires d > 0
  {
    (2 * n + d) / (2 * d)
  }

  function AmountFromGrams(grams: nat, price: nat): nat {
    RoundDiv(grams * price, 1000)
  }

  function GramsFromAmount(amount: nat, price: nat): nat
    requires price > 0
  {
    RoundDiv(amount * 1000, price)
  }

  /** The online checkout: a pending ticket at the current price while the plant is open. */
  function BuyOnline(db: Db, isOpen: bool, price: Option<int>, amount: nat, channel: Channel, phone: string,
                     reference: string, draw: Draw): Db
  {
    if channel == Cash then db
    else if !isOpen || price.None? || price.value <= 0 || GramsFromAmount(amount, price.value) <= 0 then db
    else
      Purchase(db, Order(reference, phone, GramsFromAmount(amount, price.value), price.value, amount, channel,
                         false, None, None), draw).0
  }

  /** The terminal's cash sale: a paid ticket, a pump if one works, and the sale movement, or nothing at all. */
  function CashSale(db: Db, isOpen: bool, price: Option<int>, amount: nat, phone: string,
                    reference: string, draw: Draw, user: nat, shift: nat): Result<(Db, nat), ()>
  {
    if !isOpen || price.None? || price.value <= 0 || GramsFromAmount(amount, price.value) <= 0 then Err(())
    else
      var order := Order(reference, phone, GramsFromAmount(amount, price.value), price.value, amount, Cash,
                         true, Some(user), Some(shift));
      var (sold, t) := Purchase(db, order, draw);
      if t.None? then Err(())
      else
        var (served, _) := AssignLeastBusy(sold, t.value);
        Ok((served.(movements := served.movements + [Movement(shift, Sale, amount, None, t, user)]), t.value))
  }
}
