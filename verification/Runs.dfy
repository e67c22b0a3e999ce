/** Transactions as steps of one plant's database, and runs of them. */
module Runs {
  import opened Basics
  import opened Tables
  import opened Transactions

  datatype Step =
    | BuyOnline(isOpen: bool, price: Option<int>, amount: nat, channel: Channel, phone: string,
      reference: string, draw: Draw)
    | CashSale(isOpen: bool, price: Option<int>, amount: nat, phone: string, reference: string, draw: Draw,
      user: nat, shift: nat)
    | Deliver(reference: string, outcome: Option<Verification>)
    | StartDispensing(t: nat, actor: nat)
    | CloseFilled(t: nat, shift: nat, actor: nat, note: Option<string>)
    | BulkCloseFilled(pump: nat, shift: nat, actor: nat, note: Option<string>)
    | Fill(t: nat, shift: nat)
    | Void(reference: string, actor: nat, reason: string)
    | Confirm(reference: string, phone: string)
    | StartShift(user: nat, cash: int, at: Option<nat>)
    | CloseShift(s: nat, user: nat, cash: int)
    | RecordCashMovement(s: nat, kind: Kind, cash: int, counted: Option<int>, recordedBy: nat)
    | UpsertPump(id: Option<nat>, name: string, status: PumpStatus, sortOrder: int)
    | ListPumps

  /** A failed transaction changes nothing. */
  function OrElse(r: Result<Db, ()>, db: Db): Db {
    if r.Ok? then r.value else db
  }

  function Effect(db: Db, s: Step): Db {
    match s
    case BuyOnline(isOpen, price, amount, channel, phone, reference, draw) =>
      Transactions.BuyOnline(db, isOpen, price, amount, channel, phone, reference, draw)
    case CashSale(isOpen, price, amount, phone, reference, draw, user, shift) =>
      var r := Transactions.CashSale(db, isOpen, price, amount, phone, reference, draw, user, shift);
      if r.Ok? then r.value.0 else db
    case Deliver(reference, outcome) => Transactions.Deliver(db, reference, outcome)
    case StartDispensing(t, actor) => OrElse(Transactions.StartDispensing(db, t, actor), db)
    case CloseFilled(t, shift, actor, note) => OrElse(Transactions.CloseFilled(db, t, shift, actor, note), db)
    case BulkCloseFilled(pump, shift, actor, note) =>
      var r := Transactions.BulkCloseFilled(db, pump, shift, actor, note);
      if r.Ok? then r.value.0 else db
    case Fill(t, shift) => OrElse(Transactions.Fill(db, t, shift), db)
    case Void(reference, actor, reason) => OrElse(Transactions.Void(db, reference, actor, reason), db)
    case Confirm(reference, phone) => OrElse(Transactions.Confirm(db, reference, phone), db)
    case StartShift(user, cash, at) =>
      var r := Transactions.StartShift(db, user, cash, at);
      if r.Ok? then r.value.0 else db
    case CloseShift(s, user, cash) => OrElse(Transactions.CloseShift(db, s, user, cash), db)
    case RecordCashMovement(s, kind, cash, counted, recordedBy) =>
      OrElse(Transactions.RecordCashMovement(db, s, kind, cash, counted, recordedBy), db)
    case UpsertPump(id, name, status, sortOrder) => Transactions.UpsertPump(db, id, name, status, sortOrder)
    case ListPumps => db.(pumps := EnsureDefault(db.pumps))
  }

  /** Time passes with every transaction, committed or not. */
  function Apply(db: Db, s: Step): Db {
    Effect(db, s).(clock := db.clock + 1)
  }

  function Run(db: Db, steps: seq<Step>): Db {
    if steps == [] then db else Apply(Run(db, steps[..|steps| - 1]), steps[|steps| - 1])
  }

  /** A plant before its first sale. */
  function Initial(pumps: seq<Pump>): Db {
    Db([], pumps, [], [], 0)
  }
}
