/**
 The sidecar store of image-slot.js: one read, then writes one at a time. Promise callbacks are
 events that may come in any order their promises allow.
 */
module SlotStore {
  import opened Basics
  import opened Sidecar

  /** What the host offers as writeFile at a moment: nothing, a function that takes the write, or one that throws. */
  datatype Writer = Missing | Takes | Throws

  /** How far the one read has come: merged, or failed, comes a turn before loaded. */
  datatype Reading = NotAsked | Asked | Settled | Loaded

  datatype Event =
    | Load
    | SetSlot(op: Op, writer: Writer)
    | Fetched(disk: Option<Slots>)
    | FetchFailed
    | MarkLoaded
    | DeferredSave(writer: Writer)
    | WriteDone(writer: Writer)
    | FlushNow(writer: Writer)

  /**
   Beside the module's variables: the saves waiting for the read, the write in flight, everything
   posted so far, and two marks for stating properties: a slot was set, and a save since the last
   post found no writer.
   */
  datatype State = State(
    slots: Slots,
    tombstones: set<string>,
    reading: Reading,
    saving: bool,
    saveDirty: bool,
    deferred: nat,
    writes: seq<Slots>,
    posted: seq<Slots>,
    touched: bool,
    missed: bool)

  const INITIAL := State(map[], {}, NotAsked, false, false, 0, [], [], false, false)

  /** save() */
  function Saved(s: State, w: Writer): State {
    if s.saving then s.(saveDirty := true)
    else
      match w
      case Missing => s.(missed := true)
      case Takes => s.(saving := true, writes := s.writes + [s.slots], posted := s.posted + [s.slots], missed := false)
      case Throws => s.(saving := true)
  }

  function Enter(s: State): State {
    if s.reading == NotAsked then s.(reading := Asked) else s
  }

  function Next(s: State, e: Event): State {
    match e
    case Load => Enter(s)
    case SetSlot(op, w) =>
      if op.id == "" then s
      else
        var cleared := s.(slots := s.slots - {op.id}, touched := true);
        var changed :=
          if Clears(op) then cleared
          else s.(slots := s.slots[op.id := op.val.value], tombstones := s.tombstones - {op.id}, touched := true);
        if s.reading == Loaded then Saved(changed, w)
        else
          var marked := if Clears(op) then changed.(tombstones := s.tombstones + {op.id}) else changed;
          Enter(marked).(deferred := s.deferred + 1)
    case Fetched(disk) =>
      if s.reading != Asked then s
      else if disk.None? then s.(tombstones := {}, reading := Settled)
      else s.(slots := Merge(disk.value, s.slots, s.tombstones), tombstones := {}, reading := Settled)
    case FetchFailed => if s.reading != Asked then s else s.(reading := Settled)
    case MarkLoaded => if s.reading != Settled then s else s.(reading := Loaded)
    case DeferredSave(w) =>
      if s.reading != Loaded || s.deferred == 0 then s else Saved(s.(deferred := s.deferred - 1), w)
    case WriteDone(w) =>
      if s.writes == [] then s
      else
        var done := s.(saving := false, writes := s.writes[1..]);
        if s.saveDirty then Saved(done.(saveDirty := false), w) else done
    case FlushNow(w) =>
      if s.reading == Loaded && w == Takes then s.(posted := s.posted + [s.slots], missed := false) else s
  }

  function Run(s: State, es: seq<Event>): State {
    if es == [] then s else Next(Run(s, es[..|es| - 1]), es[|es| - 1])
  }

  class Store {
    var slots: Slots
    var tombstones: set<string>
    var reading: Reading
    var saving: bool
    var saveDirty: bool
    var deferred: nat
    var writes: seq<Slots>
    var posted: seq<Slots>
    ghost var touched: bool
    ghost var missed: bool

    constructor ()
      ensures View() == INITIAL
    {
      slots, tombstones, reading, saving, saveDirty := map[], {}, NotAsked, false, false;
      deferred, writes, posted, touched, missed := 0, [], [], false, false;
    }

    ghost function View(): State
      reads this
    {
      State(slots, tombstones, reading, saving, saveDirty, deferred, writes, posted, touched, missed)
    }

    method Load()
      modifies this`reading
      ensures View() == Next(old(View()), Event.Load)
    {
      if reading == NotAsked {
        reading := Asked;
      }
    }

    method Save(w: Writer)
      modifies this`saving, this`saveDirty, this`writes, this`posted, this`missed
      ensures View() == Saved(old(View()), w)
    {
      if saving {
        saveDirty := true;
        return;
      }
      if w == Missing {
        missed := true;
        return;
      }
      saving := true;
      if w == Takes {
        writes, posted, missed := writes + [slots], posted + [slots], false;
      }
    }

    method SetSlot(id: string, val: Option<Value>, w: Writer)
      modifies this
      ensures View() == Next(old(View()), Event.SetSlot(Op(id, val), w))
      ensures id == "" ==> View() == old(View())
      ensures id != "" && val in {None, Some(Bare(""))} ==>
        && slots == old(slots) - {id}
        && tombstones == if old(reading) == Loaded then old(tombstones) else old(tombstones) + {id}
      ensures id != "" && val !in {None, Some(Bare(""))} ==>
        slots == old(slots)[id := val.value] && tombstones == old(tombstones) - {id}
    {
      hide Saved;
      if id == "" {
        return;
      }
      touched := true;
      if val.Some? && Truthy(val.value) {
        slots := slots[id := val.value];
        tombstones := tombstones - {id};
      } else {
        slots := slots - {id};
        if reading != Loaded {
          tombstones := tombstones + {id};
        }
      }
      if reading == Loaded {
        Save(w);
      } else {
        Load();
        deferred := deferred + 1;
      }
    }

    /** The read has come back: its object, or nothing to merge. */
    method Hydrate(disk: Option<Slots>)
      requires reading == Asked
      modifies this
      ensures View() == Next(old(View()), Event.Fetched(disk))
      ensures tombstones == {} && (disk.None? ==> slots == old(slots))
    {
      if disk.Some? {
        var merged := disk.value + slots;
        var inherited := map k | k in merged ::
          if k in slots && k in disk.value then Inherited(merged[k], disk.value[k]) else merged[k];
        slots := inherited - tombstones;
        assert slots == Merge(disk.value, old(slots), tombstones);
      }
      tombstones := {};
      reading := Settled;
    }

    /** The read, or its parsing, has failed: nothing is merged and the tombstones stay. */
    method ReadFailed()
      requires reading == Asked
      modifies this
      ensures View() == Next(old(View()), Event.FetchFailed)
      ensures slots == old(slots) && tombstones == old(tombstones)
    {
      reading := Settled;
    }

    method FinishRead()
      requires reading == Settled
      modifies this
      ensures View() == Next(old(View()), Event.MarkLoaded)
    {
      reading := Loaded;
    }

    /** A save that waited for the read. */
    method RunDeferred(w: Writer)
      requires reading == Loaded && deferred > 0
      modifies this
      ensures View() == Next(old(View()), Event.DeferredSave(w))
    {
      deferred := deferred - 1;
      Save(w);
    }

    method WriteDone(w: Writer)
      requires writes != []
      modifies this
      ensures View() == Next(old(View()), Event.WriteDone(w))
    {
      writes := writes[1..];
      saving := false;
      if saveDirty {
        saveDirty := false;
        Save(w);
      }
    }

    method FlushNow(w: Writer)
      modifies this
      ensures View() == Next(old(View()), Event.FlushNow(w))
    {
      if reading != Loaded || w != Takes {
        return;
      }
      posted, missed := posted + [slots], false;
    }
  }

  // ---- safety over every run ----

  /** A save whose writer threw: it stays on although nothing is in flight. */
  predicate Stuck(s: State) {
    s.saving && s.writes == []
  }

  predicate Current(s: State) {
    s.posted != [] && s.posted[|s.posted| - 1] == s.slots
  }

  /**
   At most one write in flight, on the current slots or to be followed by another; what is not posted
   is on its way.
   */
  predicate Inv(s: State) {
    && |s.writes| <= 1 && (s.writes != [] ==> s.saving)
    && (s.saveDirty ==> s.saving)
    && (s.writes != [] ==> s.writes[0] == s.slots || s.saveDirty)
    && (s.reading != Loaded ==> !s.saving && s.posted == [] && (s.touched ==> s.deferred > 0))
    && (s.touched && s.reading == Loaded && s.deferred == 0 && !s.saveDirty && !s.missed && !Stuck(s) ==> Current(s))
  }

  /** save() restores the invariant whatever the slots have become. */
  lemma SavedKeeps(s: State, w: Writer)
    requires s.reading == Loaded && |s.writes| <= 1 && (s.writes != [] ==> s.saving) && (s.saveDirty ==> s.saving)
    ensures Inv(Saved(s, w))
  {
  }

  lemma {:induction false} NextKeeps(s: State, e: Event)
    requires Inv(s)
    ensures Inv(Next(s, e))
  {
    match e {
      case SetSlot(op, w) =>
        if op.id != "" && s.reading == Loaded {
          var slots := if Clears(op) then s.slots - {op.id} else s.slots[op.id := op.val.value];
          var tombstones := if Clears(op) then s.tombstones else s.tombstones - {op.id};
          SavedKeeps(s.(slots := slots, tombstones := tombstones, touched := true), w);
          hide Saved;
        }
      case DeferredSave(w) =>
        if s.reading == Loaded && s.deferred > 0 {
          SavedKeeps(s.(deferred := s.deferred - 1), w);
          hide Saved;
        }
      case WriteDone(w) =>
        if s.writes != [] && s.saveDirty {
          SavedKeeps(s.(saving := false, writes := s.writes[1..], saveDirty := false), w);
          hide Saved;
        }
      case _ =>
    }
  }

  lemma {:induction false} RunKeeps(es: seq<Event>)
    ensures Inv(Run(INITIAL, es))
  {
    if es != [] {
      RunKeeps(es[..|es| - 1]);
      NextKeeps(Run(INITIAL, es[..|es| - 1]), es[|es| - 1]);
    }
  }

  /** Never two writes in flight, and a write in flight is of the current slots unless another is due. */
  lemma SingleWriter(es: seq<Event>)
    ensures var s := Run(INITIAL, es);
      |s.writes| <= 1 && (s.writes != [] ==> s.saving && (s.writes[0] == s.slots || s.saveDirty))
  {
    RunKeeps(es);
  }

  /** Nothing is waiting: the read is done, no save is deferred and none is on. */
  predicate Quiescent(s: State) {
    s.reading == Loaded && s.deferred == 0 && !s.saving
  }

  /** At rest, what was posted last is what the slots hold, if any slot was set and no save went without a writer. */
  lemma QuiescentIsSaved(es: seq<Event>)
    requires var s := Run(INITIAL, es); Quiescent(s) && s.touched && !s.missed
    ensures Current(Run(INITIAL, es))
  {
    RunKeeps(es);
  }

  // ---- how many writes ----

  predicate Changes(e: Event) {
    e.SetSlot? && e.op.id != ""
  }

  /** After the read, the event calls save(). */
  predicate CallsSave(s: State, e: Event) {
    Changes(e) || (e.DeferredSave? && s.deferred > 0)
  }

  ghost predicate SavesDuring(s: State, es: seq<Event>) {
    exists i :: 0 <= i < |es| && CallsSave(Run(s, es[..i]), es[i])
  }

  ghost predicate ChangesDuring(es: seq<Event>) {
    exists i :: 0 <= i < |es| && Changes(es[i])
  }

  ghost predicate WriteGoesOn(es: seq<Event>) {
    forall i :: 0 <= i < |es| ==> !es[i].WriteDone?
  }

  /** How many flushes of a list reach a writer. */
  function Flushes(es: seq<Event>): nat {
    if es == [] then 0 else Flushes(es[..|es| - 1]) + (if es[|es| - 1] == FlushNow(Takes) then 1 else 0)
  }

  /** After the read and during a write. */
  predicate Writing(s: State) {
    s.reading == Loaded && s.saving && s.writes != []
  }

  /** During a write a save only leaves the store dirty, a flush alone posts, and a change alone touches the slots. */
  lemma WritingStep(s: State, e: Event)
    requires Writing(s) && !e.WriteDone?
    ensures var after := Next(s, e);
      && Writing(after) && after.writes == s.writes
      && (after.saveDirty <==> s.saveDirty || CallsSave(s, e))
      && (after.slots != s.slots ==> Changes(e))
      && after.posted == s.posted + (if e == FlushNow(Takes) then [s.slots] else [])
  {
  }

  lemma LastSaves(s: State, es: seq<Event>)
    requires es != []
    ensures var n := |es| - 1;
      && (SavesDuring(s, es) <==> SavesDuring(s, es[..n]) || CallsSave(Run(s, es[..n]), es[n]))
      && (ChangesDuring(es) <==> ChangesDuring(es[..n]) || Changes(es[n]))
  {
    hide CallsSave, Changes, Run;
    var n := |es| - 1;
    assert forall i :: 0 <= i < n ==> es[..n][i] == es[i] && es[..n][..i] == es[..i];
    if SavesDuring(s, es[..n]) {
      var i :| 0 <= i < n && CallsSave(Run(s, es[..n][..i]), es[..n][i]);
      assert CallsSave(Run(s, es[..i]), es[i]);
    }
    if SavesDuring(s, es) {
      var i :| 0 <= i < |es| && CallsSave(Run(s, es[..i]), es[i]);
      assert i < n ==> CallsSave(Run(s, es[..n][..i]), es[..n][i]);
    }
    if ChangesDuring(es[..n]) {
      var i :| 0 <= i < n && Changes(es[..n][i]);
      assert Changes(es[i]);
    }
  }

  lemma {:induction false} SavesWait(s: State, es: seq<Event>)
    requires Writing(s) && WriteGoesOn(es)
    ensures var after := Run(s, es);
      && Writing(after) && after.writes == s.writes
      && (after.saveDirty <==> s.saveDirty || SavesDuring(s, es))
      && (after.slots != s.slots ==> ChangesDuring(es))
      && s.posted <= after.posted && |after.posted| == |s.posted| + Flushes(es)
  {
    if es != [] {
      hide Next, CallsSave, Changes, SavesDuring, ChangesDuring, Writing;
      var n := |es| - 1;
      SavesWait(s, es[..n]);
      WritingStep(Run(s, es[..n]), es[n]);
      LastSaves(s, es);
    }
  }

  /**
   Whatever happens during one write, only flushes post anything; and its end causes exactly one more
   write, of the slots as they are then, if any save was asked for, by a change or by one that had
   waited for the read, however often, and none if none was.
   */
  lemma {:induction false} SavesCoalesce(s: State, es: seq<Event>)
    requires Inv(s) && s.writes != [] && WriteGoesOn(es)
    ensures var again := s.saveDirty || SavesDuring(s, es);
      var later := Run(s, es); var done := Next(later, WriteDone(Takes));
      && later.writes == s.writes && s.posted <= later.posted && |later.posted| == |s.posted| + Flushes(es)
      && done.posted == later.posted + (if again then [later.slots] else [])
      && done.writes == (if again then [later.slots] else []) && done.saving == again && !done.saveDirty
      && done.slots == later.slots && (!again ==> done.slots == s.slots)
      && Next(done, WriteDone(Takes)).posted == done.posted && !Next(done, WriteDone(Takes)).saving
  {
    SavesWait(s, es);
    WriteEnds(Run(s, es));
    if ChangesDuring(es) {
      var i :| 0 <= i < |es| && Changes(es[i]);
      assert CallsSave(Run(s, es[..i]), es[i]);
    }
    hide Next, Run, CallsSave;
  }

  /** The end of a write: another one if the store is dirty, and none after that. */
  lemma WriteEnds(s: State)
    requires s.saving && |s.writes| == 1
    ensures var done := Next(s, WriteDone(Takes)); var again := s.saveDirty;
      && done.posted == s.posted + (if again then [s.slots] else [])
      && done.writes == (if again then [s.slots] else []) && done.saving == again && !done.saveDirty
      && done.slots == s.slots
      && Next(done, WriteDone(Takes)).posted == done.posted && !Next(done, WriteDone(Takes)).saving
  {
  }

  /** During the write no save that waited for the read runs, and no flush. */
  ghost predicate OnlyChanges(es: seq<Event>) {
    forall i :: 0 <= i < |es| ==> !es[i].DeferredSave? && !es[i].FlushNow? && !es[i].WriteDone?
  }

  lemma {:induction false} NoFlushes(es: seq<Event>)
    requires OnlyChanges(es)
    ensures Flushes(es) == 0
  {
    if es != [] {
      assert !es[|es| - 1].FlushNow?;
      NoFlushes(es[..|es| - 1]);
    }
  }

  /** So without those the next write comes if and only if a slot was set, and nothing is posted before it. */
  lemma {:induction false} ChangesCoalesce(s: State, es: seq<Event>)
    requires Inv(s) && s.writes != [] && !s.saveDirty && OnlyChanges(es)
    ensures var changed := exists i :: 0 <= i < |es| && Changes(es[i]);
      var later := Run(s, es); var done := Next(later, WriteDone(Takes));
      && later.posted == s.posted
      && done.posted == s.posted + (if changed then [later.slots] else [])
      && done.writes == (if changed then [later.slots] else []) && done.saving == changed && !done.saveDirty
      && (!changed ==> done.slots == s.slots)
      && Next(done, WriteDone(Takes)).posted == done.posted && !Next(done, WriteDone(Takes)).saving
  {
    SavesCoalesce(s, es);
    NoFlushes(es);
    assert SavesDuring(s, es) <==> ChangesDuring(es) by {
      if ChangesDuring(es) {
        var i :| 0 <= i < |es| && Changes(es[i]);
        assert CallsSave(Run(s, es[..i]), es[i]);
      }
      if SavesDuring(s, es) {
        var i :| 0 <= i < |es| && CallsSave(Run(s, es[..i]), es[i]);
        assert Changes(es[i]);
      }
    }
    hide Next, Inv;
  }

  /** Two drops, a read without a sidecar, their two saves, and the end of the first write. */
  function TwoDrops(u: Value, v: Value): seq<Event> {
    [Event.SetSlot(Op("hero", Some(u)), Takes), Event.SetSlot(Op("logo", Some(v)), Takes), Fetched(None), MarkLoaded,
     DeferredSave(Takes), DeferredSave(Takes), WriteDone(Takes)]
  }

  lemma {:induction false} TwoDropped(u: Value, v: Value)
    requires Truthy(u) && Truthy(v)
    ensures Run(INITIAL, TwoDrops(u, v)[..2]) ==
      INITIAL.(slots := map["hero" := u, "logo" := v], reading := Asked, deferred := 2, touched := true)
  {
    var es := TwoDrops(u, v);
    NextOfRun(INITIAL, es, 0);
    NextOfRun(INITIAL, es, 1);
    assert es[..0] == [];
    assert Run(INITIAL, es[..0]) == INITIAL;
    hide Run;
    var one := INITIAL.(slots := map["hero" := u], reading := Asked, deferred := 1, touched := true);
    assert Run(INITIAL, es[..1]) == one;
    assert one.slots["logo" := v] == map["hero" := u, "logo" := v];
  }

  lemma TwoSaves(slots: Slots)
    ensures var waiting := INITIAL.(slots := slots, reading := Asked, deferred := 2, touched := true);
      var read := Next(Next(waiting, Fetched(None)), MarkLoaded);
      Next(Next(Next(read, DeferredSave(Takes)), DeferredSave(Takes)), WriteDone(Takes)) ==
        read.(deferred := 0, saving := true, writes := [slots], posted := [slots, slots]) && read.slots == slots
  {
  }

  /** Two slots set before the read is over: their saves both run, and the second one writes the same slots again. */
  lemma {:induction false} SameSlotsTwice(u: Value, v: Value)
    requires Truthy(u) && Truthy(v)
    ensures var both := map["hero" := u, "logo" := v];
      var after := Run(INITIAL, TwoDrops(u, v));
      after.slots == both && after.posted == [both, both] && after.writes == [both]
  {
    hide Run, Next;
    var es := TwoDrops(u, v);
    TwoDropped(u, v);
    TwoSaves(map["hero" := u, "logo" := v]);
    forall n | 2 <= n < 7 ensures Run(INITIAL, es[..n + 1]) == Next(Run(INITIAL, es[..n]), es[n]) {
      NextOfRun(INITIAL, es, n);
    }
    assert es[..7] == es;
    assert Run(INITIAL, es[..3]) == Next(Run(INITIAL, es[..2]), Fetched(None));
    assert Run(INITIAL, es[..4]) == Next(Run(INITIAL, es[..3]), MarkLoaded);
    assert Run(INITIAL, es[..5]) == Next(Run(INITIAL, es[..4]), DeferredSave(Takes));
    assert Run(INITIAL, es[..6]) == Next(Run(INITIAL, es[..5]), DeferredSave(Takes));
    assert Run(INITIAL, es[..7]) == Next(Run(INITIAL, es[..6]), WriteDone(Takes));
  }

  lemma NextOfRun(s: State, es: seq<Event>, n: nat)
    requires n < |es|
    ensures Run(s, es[..n + 1]) == Next(Run(s, es[..n]), es[n])
  {
    assert es[..n + 1][..n] == es[..n];
  }

  // ---- writers that are missing or throw ----

  /** The writer that save() meets in an event; none if it is not called, or only marks the store dirty. */
  function Meets(s: State, e: Event): Option<Writer> {
    match e
    case SetSlot(op, w) => if op.id != "" && s.reading == Loaded && !s.saving then Some(w) else None
    case DeferredSave(w) => if s.reading == Loaded && s.deferred > 0 && !s.saving then Some(w) else None
    case WriteDone(w) => if s.writes != [] && s.saveDirty then Some(w) else None
    case _ => None
  }

  predicate Posts(s: State, e: Event) {
    Meets(s, e) == Some(Takes) || (e == FlushNow(Takes) && s.reading == Loaded)
  }

  /** The i-th event of a run, from the state it meets, calls save() on a writer of this kind. */
  predicate MeetsAt(es: seq<Event>, i: nat, w: Writer)
    requires i < |es|
  {
    Meets(Run(INITIAL, es[..i]), es[i]) == Some(w)
  }

  predicate PostsAt(es: seq<Event>, i: nat)
    requires i < |es|
  {
    Posts(Run(INITIAL, es[..i]), es[i])
  }

  lemma PrefixMeets(es: seq<Event>, n: nat, i: nat, w: Writer)
    requires i < n <= |es|
    ensures MeetsAt(es[..n], i, w) == MeetsAt(es, i, w) && PostsAt(es[..n], i) == PostsAt(es, i)
  {
    assert es[..n][..i] == es[..i];
  }

  lemma StuckStep(s: State, e: Event)
    requires Inv(s)
    ensures Stuck(Next(s, e)) <==> Stuck(s) || Meets(s, e) == Some(Throws)
  {
  }

  /** The store is stuck if and only if save() has once called a writer that throws. */
  lemma {:induction false} StuckExactly(es: seq<Event>)
    ensures Stuck(Run(INITIAL, es)) <==> exists i :: 0 <= i < |es| && MeetsAt(es, i, Throws)
  {
    if es != [] {
      hide Next, Stuck, Inv, Meets, MeetsAt;
      var n := |es| - 1;
      StuckExactly(es[..n]);
      RunKeeps(es[..n]);
      StuckStep(Run(INITIAL, es[..n]), es[n]);
      LastMeets(es, Throws);
    } else {
      assert Run(INITIAL, es) == INITIAL;
    }
  }

  lemma LastMeets(es: seq<Event>, w: Writer)
    requires es != []
    ensures var n := |es| - 1;
      (exists i :: 0 <= i < |es| && MeetsAt(es, i, w))
      <==> (exists i :: 0 <= i < n && MeetsAt(es[..n], i, w)) || Meets(Run(INITIAL, es[..n]), es[n]) == Some(w)
  {
    var n := |es| - 1;
    assert MeetsAt(es, n, w) <==> Meets(Run(INITIAL, es[..n]), es[n]) == Some(w);
    hide MeetsAt;
    forall i: nat | i < n ensures MeetsAt(es[..n], i, w) == MeetsAt(es, i, w) {
      PrefixMeets(es, n, i, w);
    }
  }

  lemma StuckStays(s: State, e: Event)
    requires Stuck(s)
    ensures Stuck(Next(s, e)) && (!e.FlushNow? ==> Next(s, e).posted == s.posted)
  {
  }

  /** Once stuck a store stays so through any run, and only a flush posts anything. */
  lemma {:induction false} StuckForever(s: State, es: seq<Event>)
    requires Stuck(s)
    ensures Stuck(Run(s, es))
    ensures (forall i :: 0 <= i < |es| ==> !es[i].FlushNow?) ==> Run(s, es).posted == s.posted
  {
    if es != [] {
      hide Next, Stuck;
      StuckForever(s, es[..|es| - 1]);
      StuckStays(Run(s, es[..|es| - 1]), es[|es| - 1]);
    }
  }

  /** The shortest run that gets stuck: after a read without a sidecar the first drop meets a writer that throws. */
  lemma {:induction false} ThrowingWriterSticks(val: Value)
    requires Truthy(val)
    ensures var es := [Load, Fetched(None), MarkLoaded, Event.SetSlot(Op("hero", Some(val)), Throws)];
      Stuck(Run(INITIAL, es)) && Run(INITIAL, es).slots == map["hero" := val] && Run(INITIAL, es).posted == []
  {
    AfterEmptyRead(Event.SetSlot(Op("hero", Some(val)), Throws));
  }

  /** A store whose read found nothing. */
  const EMPTY_READ := INITIAL.(reading := Loaded)

  lemma AfterEmptyRead(e: Event)
    ensures Run(INITIAL, [Load, Fetched(None), MarkLoaded, e]) == Next(EMPTY_READ, e)
  {
    var es := [Load, Fetched(None), MarkLoaded, e];
    assert es[..3] == [Load, Fetched(None), MarkLoaded] && es[..3][..2] == [Load, Fetched(None)];
    assert es[..3][..2][..1] == [Load] && es[..3][..2][..1][..0] == [];
    assert Run(INITIAL, [Load]) == INITIAL.(reading := Asked);
    assert Run(INITIAL, es[..3][..2]) == INITIAL.(reading := Settled);
    assert Run(INITIAL, es[..3]) == EMPTY_READ;
  }

  lemma MissedStep(s: State, e: Event)
    ensures Next(s, e).missed <==> !Posts(s, e) && (s.missed || Meets(s, e) == Some(Missing))
    ensures Next(s, e).posted == s.posted + (if Posts(s, e) then [Next(s, e).slots] else [])
  {
    match e {
      case SetSlot(op, w) =>
      case DeferredSave(w) =>
      case WriteDone(w) =>
      case _ =>
    }
  }

  /** The i-th event calls save() without a writer, and none after it posts. */
  ghost predicate MissedAt(es: seq<Event>, i: nat)
    requires i < |es|
  {
    MeetsAt(es, i, Missing) && forall j: nat :: i < j < |es| ==> !PostsAt(es, j)
  }

  lemma MissedBefore(es: seq<Event>, i: nat)
    requires i < |es| - 1
    ensures MissedAt(es, i) <==> MissedAt(es[..|es| - 1], i) && !PostsAt(es, |es| - 1)
  {
    hide MeetsAt, PostsAt;
    var n := |es| - 1;
    forall j: nat | j < n
      ensures MeetsAt(es[..n], j, Missing) == MeetsAt(es, j, Missing) && PostsAt(es[..n], j) == PostsAt(es, j)
    {
      PrefixMeets(es, n, j, Missing);
    }
  }

  lemma LastMissed(es: seq<Event>)
    requires es != []
    ensures var n := |es| - 1; var s := Run(INITIAL, es[..n]);
      (exists i :: 0 <= i < |es| && MissedAt(es, i))
      <==> (!Posts(s, es[n]) && exists i :: 0 <= i < n && MissedAt(es[..n], i)) || Meets(s, es[n]) == Some(Missing)
  {
    var n := |es| - 1;
    assert MissedAt(es, n) <==> Meets(Run(INITIAL, es[..n]), es[n]) == Some(Missing);
    assert PostsAt(es, n) <==> Posts(Run(INITIAL, es[..n]), es[n]);
    hide Run, Meets, Posts, PostsAt, MissedAt;
    forall i: nat | i < n ensures MissedAt(es, i) <==> MissedAt(es[..n], i) && !PostsAt(es, n) {
      MissedBefore(es, i);
    }
  }

  /** A save is missed if and only if one found no writer and nothing has been posted since. */
  lemma {:induction false} MissedExactly(es: seq<Event>)
    ensures Run(INITIAL, es).missed <==> exists i :: 0 <= i < |es| && MissedAt(es, i)
  {
    if es != [] {
      hide Next, Meets, MissedAt;
      var n := |es| - 1;
      MissedExactly(es[..n]);
      MissedStep(Run(INITIAL, es[..n]), es[n]);
      LastMissed(es);
    } else {
      assert Run(INITIAL, es) == INITIAL;
    }
  }

  /** Until something is posted nothing is saved: a store at rest whose saves all found no writer is not current. */
  lemma {:induction false} NothingPosted(es: seq<Event>)
    requires forall i: nat :: i < |es| ==> !PostsAt(es, i)
    ensures Run(INITIAL, es).posted == [] && !Current(Run(INITIAL, es))
  {
    if es != [] {
      hide Next, Posts;
      var n := |es| - 1;
      forall i: nat | i < n ensures !PostsAt(es[..n], i) {
        PrefixMeets(es, n, i, Missing);
      }
      NothingPosted(es[..n]);
      MissedStep(Run(INITIAL, es[..n]), es[n]);
      assert !PostsAt(es, n);
    }
  }

  /** The j-th event posts, and none after it does. */
  ghost predicate LastPostAt(es: seq<Event>, j: nat)
    requires j < |es|
  {
    PostsAt(es, j) && forall k: nat :: j < k < |es| ==> !PostsAt(es, k)
  }

  /** What was posted last is what the slots were then. */
  lemma {:induction false} LastPosted(es: seq<Event>, j: nat)
    requires j < |es| && LastPostAt(es, j)
    ensures Run(INITIAL, es).posted != []
    ensures var posted := Run(INITIAL, es).posted; posted[|posted| - 1] == Run(INITIAL, es[..j + 1]).slots
  {
    hide Next, Posts;
    var n := |es| - 1;
    MissedStep(Run(INITIAL, es[..n]), es[n]);
    if j == n {
      assert es[..j + 1] == es;
    } else {
      forall k: nat | k < n ensures PostsAt(es[..n], k) == PostsAt(es, k) {
        PrefixMeets(es, n, k, Missing);
      }
      LastPosted(es[..n], j);
      assert es[..n][..j + 1] == es[..j + 1];
      assert !PostsAt(es, n);
    }
  }

  /** Some event posts last, if any posts. */
  lemma {:induction false} SomeLastPost(es: seq<Event>, i: nat) returns (j: nat)
    requires i < |es| && PostsAt(es, i)
    ensures j < |es| && LastPostAt(es, j)
    decreases |es| - i
  {
    hide PostsAt;
    if k: nat :| i < k < |es| && PostsAt(es, k) {
      j := SomeLastPost(es, k);
    } else {
      j := i;
    }
  }

  /**
   After any run the content posted last is the current slots if and only if something was posted and
   the slots are as they were then.
   */
  lemma {:induction false} CurrentExactly(es: seq<Event>)
    ensures Current(Run(INITIAL, es)) <==>
      exists j :: 0 <= j < |es| && LastPostAt(es, j) && Run(INITIAL, es[..j + 1]).slots == Run(INITIAL, es).slots
  {
    hide LastPostAt, PostsAt;
    forall j: nat | j < |es| && LastPostAt(es, j)
      ensures Current(Run(INITIAL, es)) <==> Run(INITIAL, es[..j + 1]).slots == Run(INITIAL, es).slots
    {
      LastPosted(es, j);
    }
    if i: nat :| i < |es| && PostsAt(es, i) {
      var _ := SomeLastPost(es, i);
    } else {
      NothingPosted(es);
    }
  }

  lemma {:induction false} StaysCurrent(s: State, es: seq<Event>)
    requires s.reading == Loaded && Current(s) && !ChangesDuring(es)
    ensures Run(s, es).reading == Loaded && Run(s, es).slots == s.slots && Current(Run(s, es))
  {
    if es != [] {
      hide Saved;
      var n := |es| - 1;
      forall i | 0 <= i < n ensures !Changes(es[..n][i]) {
        assert es[..n][i] == es[i];
      }
      StaysCurrent(s, es[..n]);
      assert !Changes(es[n]);
      MissedStep(Run(s, es[..n]), es[n]);
      if !es[n].Fetched? {
        ChangesOnly(Run(s, es[..n]), es[n]);
      }
    }
  }

  lemma ChangesOnly(s: State, e: Event)
    requires !Changes(e) && !e.Fetched?
    ensures Next(s, e).slots == s.slots && (s.reading == Loaded ==> Next(s, e).reading == Loaded)
  {
  }

  /** A save or flush that posts makes up for every one missed, and the slots stay saved until one is set. */
  lemma {:induction false} PostRestores(s: State, e: Event, es: seq<Event>)
    requires Inv(s) && Posts(s, e) && !ChangesDuring(es)
    ensures !Next(s, e).missed && Current(Next(s, e)) && Current(Run(Next(s, e), es))
  {
    MissedStep(s, e);
    StaysCurrent(Next(s, e), es);
  }

  /** The event sets a slot, or clears it, and leaves the slots as they were. */
  predicate ChangesNothing(s: State, e: Event)
    requires Changes(e)
  {
    if Clears(e.op) then e.op.id !in s.slots else e.op.id in s.slots && s.slots[e.op.id] == e.op.val.value
  }

  lemma ChangesNothingExactly(s: State, e: Event)
    requires Changes(e) && s.reading == Loaded
    ensures ChangesNothing(s, e) <==> Next(s, e).slots == s.slots
  {
    var op := e.op;
    var after := if Clears(op) then s.slots - {op.id} else s.slots[op.id := op.val.value];
    assert Next(s, e).slots == after;
    if Clears(op) {
      assert op.id !in after;
      assert op.id !in s.slots ==> after == s.slots;
    } else {
      assert after[op.id] == op.val.value;
      assert op.id in s.slots && s.slots[op.id] == op.val.value ==> after == s.slots;
    }
  }

  /**
   A call of save() on a writer, at a change, after the read, or at the end of a write, leaves the store
   saved if and only if the writer takes it, or everything was saved before and the event changes nothing.
   */
  lemma {:induction false} SavedExactly(s: State, e: Event, w: Writer)
    requires Meets(s, e) == Some(w) && (Changes(e) ==> Current(s))
    ensures Current(Next(s, e)) <==> w == Takes || (Current(s) && (Changes(e) ==> ChangesNothing(s, e)))
  {
    MissedStep(s, e);
    if Changes(e) {
      ChangesNothingExactly(s, e);
    } else {
      ChangesOnly(s, e);
    }
    hide Next, ChangesNothing;
  }

  /** So a change made at rest leaves the store saved if and only if the writer takes it, or it changes nothing. */
  lemma ChangeSavedExactly(s: State, op: Op, w: Writer)
    requires Quiescent(s) && Current(s) && op.id != ""
    ensures Current(Next(s, Event.SetSlot(op, w))) <==>
      w == Takes || (if Clears(op) then op.id !in s.slots else op.id in s.slots && s.slots[op.id] == op.val.value)
  {
    hide Next;
    SavedExactly(s, Event.SetSlot(op, w), w);
  }

  /** A run at rest with an unsaved slot: the first drop finds no writer, and is forgotten. */
  lemma {:induction false} MissingWriterForgets(val: Value)
    requires Truthy(val)
    ensures var s := Run(INITIAL, [Load, Fetched(None), MarkLoaded, Event.SetSlot(Op("hero", Some(val)), Missing)]);
      Quiescent(s) && s.touched && s.slots == map["hero" := val] && s.posted == [] && !Current(s)
  {
    AfterEmptyRead(Event.SetSlot(Op("hero", Some(val)), Missing));
  }

  // ---- coming to rest ----

  /** Every deferred save runs and every write completes, with a working writer. */
  function Drain(s: State, n: nat): State
    decreases n
  {
    if n == 0 then Next(Next(s, WriteDone(Takes)), WriteDone(Takes)) else Drain(Next(s, DeferredSave(Takes)), n - 1)
  }

  /** Left alone, a store that is not stuck comes to rest with everything posted, two writes after the deferred ones. */
  lemma {:induction false} DrainRests(s: State, n: nat)
    requires Inv(s) && s.reading == Loaded && !Stuck(s) && s.deferred == n
    ensures var rest := Drain(s, n);
      Quiescent(rest) && rest.slots == s.slots && (s.touched && !s.missed ==> Current(rest))
    decreases n
  {
    if n > 0 {
      var next := Next(s, DeferredSave(Takes));
      NextKeeps(s, DeferredSave(Takes));
      DrainRests(next, n - 1);
    } else {
      NextKeeps(s, WriteDone(Takes));
      NextKeeps(Next(s, WriteDone(Takes)), WriteDone(Takes));
    }
  }

  // ---- hydration ----

  predicate BeforeRead(e: Event) {
    !e.Fetched? && !e.FetchFailed?
  }

  /** The calls of setSlot in a run. */
  function Ops(es: seq<Event>): seq<Op> {
    if es == [] then []
    else
      var e := es[|es| - 1];
      if e.SetSlot? then Ops(es[..|es| - 1]) + [e.op] else Ops(es[..|es| - 1])
  }

  /** A store whose read has not settled has posted nothing. */
  predicate Reads(s: State) {
    && (s.reading == NotAsked || s.reading == Asked) && (s.touched ==> s.reading == Asked)
    && s.posted == [] && s.writes == []
  }

  function MemoryOf(s: State): Memory {
    Memory(s.slots, s.tombstones)
  }

  lemma BeforeReadStep(s: State, e: Event)
    requires Reads(s) && BeforeRead(e)
    ensures Reads(Next(s, e))
    ensures MemoryOf(Next(s, e)) == if e.SetSlot? then SetBeforeLoad(MemoryOf(s), e.op) else MemoryOf(s)
  {
  }

  lemma {:induction false} LocalSnoc(ops: seq<Op>, op: Op)
    ensures Local(ops + [op]) == SetBeforeLoad(Local(ops), op)
  {
    assert (ops + [op])[..|ops|] == ops;
  }

  /** Before the read settles, memory holds just what the calls made of it, and nothing is posted. */
  lemma {:induction false} MemoryIsLocal(es: seq<Event>)
    requires forall i :: 0 <= i < |es| ==> BeforeRead(es[i])
    ensures Reads(Run(INITIAL, es)) && MemoryOf(Run(INITIAL, es)) == Local(Ops(es))
  {
    if es != [] {
      hide Next, Reads, SetBeforeLoad, BeforeRead, MemoryOf;
      var init, e := es[..|es| - 1], es[|es| - 1];
      MemoryIsLocal(init);
      BeforeReadStep(Run(INITIAL, init), e);
      if e.SetSlot? {
        LocalSnoc(Ops(init), e.op);
      }
    }
  }

  /** Hydration after any calls: the merge with the sidecar, which is their replay on it unless an image is borrowed. */
  lemma {:induction false} HydrationReplays(es: seq<Event>, disk: Slots)
    requires forall i :: 0 <= i < |es| ==> BeforeRead(es[i])
    requires Run(INITIAL, es).reading == Asked
    ensures var after := Next(Run(INITIAL, es), Fetched(Some(disk)));
      && after.slots == Merged(disk, Ops(es)) && after.tombstones == {}
      && (after.slots == Replay(disk, Ops(es)) <==> forall id :: !Borrows(disk, Ops(es), id))
  {
    hide Local, Replay, Merge, Borrows, Ops, Run;
    MemoryIsLocal(es);
    MergeIsReplay(disk, Ops(es));
  }
}
