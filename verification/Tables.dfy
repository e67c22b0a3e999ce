/**
 The tables of one plant. Rows are never deleted, so a row's position stands for its identifier;
 created_at is a separate column. One transaction sees one clock value.
 */
module Tables {
  import opened Basics

  /** Every value the status column admits; no transaction writes the last three. */
  datatype Status = Pending | Paid | Dispensing | Filled | Voided | Expired | Cancelled | Issue

  datatype Channel = Transfer | Terminal | Ussd | Cash

  datatype Ticket = Ticket(
    reference: string,
    code: string,
    phone: string,
    grams: int,
    rate: int,
    amount: int,
    channel: Channel,
    status: Status,
    createdAt: nat,
    paidAt: Option<nat>,
    soldBy: Option<nat>,
    shift: Option<nat>,
    pump: Option<nat>,
    startedAt: Option<nat>,
    startedBy: Option<nat>,
    filledAt: Option<nat>,
    filledShift: Option<nat>,
    closedBy: Option<nat>,
    closeNote: Option<string>,
    netGrams: Option<int>,
    voidedAt: Option<nat>,
    voidedBy: Option<nat>,
    voidReason: Option<string>,
    confirmedAt: Option<nat>)

  datatype PumpStatus = Working | NotWorking | Maintenance

  datatype Pump = Pump(name: string, status: PumpStatus, sortOrder: int)

  datatype Shift = Shift(
    user: nat,
    pump: Option<nat>,
    openedAt: nat,
    openingCash: int,
    closedAt: Option<nat>,
    closingCash: Option<int>)

  datatype Kind = OpeningFloat | Sale | Deposit | Payout | Count | Closing

  datatype Movement = Movement(shift: nat, kind: Kind, amount: int, counted: Option<int>, ticket: Option<nat>,
                               recordedBy: nat)

  datatype Db = Db(
    tickets: seq<Ticket>,
    pumps: seq<Pump>,
    shifts: seq<Shift>,
    movements: seq<Movement>,
    clock: nat)

  /** The statuses covered by the unique index on codes, as migration 0007 leaves it. */
  predicate Live(s: Status) {
    s == Pending || s == Paid || s == Dispensing
  }

  /** A ticket that keeps its pump busy. */
  predicate Busy(t: Ticket) {
    t.status == Paid || t.status == Dispensing
  }

  predicate CodeTaken(ts: seq<Ticket>, code: string) {
    exists i :: 0 <= i < |ts| && ts[i].code == code && Live(ts[i].status)
  }

  predicate ReferenceTaken(ts: seq<Ticket>, reference: string) {
    exists i :: 0 <= i < |ts| && ts[i].reference == reference
  }

  /** Position of the first row with this reference, or the number of rows. */
  function FindReference(ts: seq<Ticket>, reference: string): (r: nat)
    ensures r <= |ts|
    ensures r < |ts| ==> ts[r].reference == reference
    ensures forall i :: 0 <= i < r ==> ts[i].reference != reference
  {
    if ts == [] || ts[0].reference == reference then 0
    else 1 + FindReference(ts[1..], reference)
  }

  /** How many tickets keep pump p busy. */
  function Load(ts: seq<Ticket>, p: nat): nat {
    if ts == [] then 0
    else Load(ts[..|ts| - 1], p) + (if Busy(ts[|ts| - 1]) && ts[|ts| - 1].pump == Some(p) then 1 else 0)
  }

  // ---- in terms of the columns ----

  /** A code is taken by the tickets that are pending, paid or dispensing, and by no other. */
  lemma CodeTakenExactly(ts: seq<Ticket>, code: string)
    ensures CodeTaken(ts, code)
      <==> exists i :: 0 <= i < |ts| && ts[i].code == code && ts[i].status in {Pending, Paid, Dispensing}
  {
  }

  /** The tickets that keep pump p busy: paid or dispensing, and assigned to it. */
  ghost function BusyAt(ts: seq<Ticket>, p: nat): set<nat> {
    set i: nat | i < |ts| && ts[i].status in {Paid, Dispensing} && ts[i].pump == Some(p)
  }

  /** A pump's load is their number. */
  lemma {:induction false} LoadCounts(ts: seq<Ticket>, p: nat)
    ensures Load(ts, p) == |BusyAt(ts, p)|
  {
    if ts != [] {
      BusyAtSnoc(ts, p);
      hide BusyAt;
      LoadCounts(ts[..|ts| - 1], p);
    }
  }

  lemma {:induction false} BusyAtSnoc(ts: seq<Ticket>, p: nat)
    requires ts != []
    ensures var n := |ts| - 1; var before := BusyAt(ts[..n], p);
      && n !in before
      && BusyAt(ts, p) == if ts[n].status in {Paid, Dispensing} && ts[n].pump == Some(p) then before + {n} else before
  {
    var n := |ts| - 1;
    assert forall i: nat :: i < n ==> ts[..n][i] == ts[i];
  }
}
