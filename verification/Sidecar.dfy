/** The values of the image-slot sidecar and the merge that hydration performs. */
module Sidecar {
  import opened Basics

  datatype Frame = Frame(s: real, x: real, y: real)

  /** A stored slot: a bare data URL, as old sidecars have it, or an object whose image may be missing. */
  datatype Value = Bare(url: string) | Obj(u: Option<string>, frame: Frame)

  type Slots = map<string, Value>

  /** JavaScript's truth of a stored value. */
  predicate Truthy(v: Value) {
    v.Obj? || v.url != ""
  }

  /** The truth of v.u: a string has no property u. */
  predicate HasImage(v: Value) {
    v.Obj? && v.u.Some? && v.u.value != ""
  }

  function ImageOf(v: Value): Option<string> {
    match v
    case Bare(url) => Some(url)
    case Obj(u, _) => u
  }

  /** How a reader sees a slot. */
  function GetSlot(slots: Slots, id: string): Option<Value> {
    if id !in slots || !Truthy(slots[id]) then None
    else
      match slots[id]
      case Bare(url) => Some(Obj(Some(url), Frame(1.0, 0.0, 0.0)))
      case Obj(_, _) => Some(slots[id])
  }

  /** An in-memory entry without an image takes the one on disk; assigning to a bare string does nothing. */
  function Inherited(v: Value, disk: Value): Value {
    if v.Obj? && !HasImage(v) && Truthy(disk) then v.(u := ImageOf(disk)) else v
  }

  /** The slots after hydration: disk entries lose to memory, and to the tombstones. */
  function Merge(disk: Slots, slots: Slots, tombstones: set<string>): Slots {
    map k | k in disk.Keys + slots.Keys && k !in tombstones ::
      if k !in slots then disk[k] else if k in disk then Inherited(slots[k], disk[k]) else slots[k]
  }

  // ---- what happens before hydration ----

  /** One call of setSlot; a value that is missing or falsy clears. */
  datatype Op = Op(id: string, val: Option<Value>)

  predicate Clears(op: Op) {
    op.val.None? || !Truthy(op.val.value)
  }

  datatype Memory = Memory(slots: Slots, tombstones: set<string>)

  function SetBeforeLoad(m: Memory, op: Op): Memory {
    if op.id == "" then m
    else if Clears(op) then Memory(m.slots - {op.id}, m.tombstones + {op.id})
    else Memory(m.slots[op.id := op.val.value], m.tombstones - {op.id})
  }

  function Local(ops: seq<Op>): Memory {
    if ops == [] then Memory(map[], {}) else SetBeforeLoad(Local(ops[..|ops| - 1]), ops[|ops| - 1])
  }

  /** The same calls applied one by one to the sidecar itself. */
  function Replay(disk: Slots, ops: seq<Op>): Slots {
    if ops == [] then disk
    else
      var before, op := Replay(disk, ops[..|ops| - 1]), ops[|ops| - 1];
      if op.id == "" then before
      else if Clears(op) then before - {op.id}
      else before[op.id := op.val.value]
  }

  /** The last call for an id, if there is one. */
  function LastOp(ops: seq<Op>, id: string): Option<Op> {
    if ops == [] then None
    else if ops[|ops| - 1].id == id then Some(ops[|ops| - 1])
    else LastOp(ops[..|ops| - 1], id)
  }

  /** Memory knows of each id exactly its last call. */
  lemma {:induction false} LocalIsLast(ops: seq<Op>, id: string)
    requires id != ""
    ensures var m, last := Local(ops), LastOp(ops, id);
      match last
      case None => id !in m.slots && id !in m.tombstones
      case Some(op) =>
        if Clears(op) then id !in m.slots && id in m.tombstones
        else id in m.slots && m.slots[id] == op.val.value && id !in m.tombstones
  {
    if ops != [] {
      LocalIsLast(ops[..|ops| - 1], id);
    }
  }

  lemma {:induction false} ReplayIsLast(disk: Slots, ops: seq<Op>, id: string)
    requires id != ""
    ensures var after, last := Replay(disk, ops), LastOp(ops, id);
      match last
      case None => (id in after <==> id in disk) && (id in disk ==> after[id] == disk[id])
      case Some(op) => if Clears(op) then id !in after else id in after && after[id] == op.val.value
  {
    if ops != [] {
      ReplayIsLast(disk, ops[..|ops| - 1], id);
    }
  }

  lemma {:induction false} NoBlankIds(disk: Slots, ops: seq<Op>)
    ensures "" !in Local(ops).slots && "" !in Local(ops).tombstones
    ensures ("" in Replay(disk, ops) <==> "" in disk) && ("" in disk ==> Replay(disk, ops)[""] == disk[""])
  {
    if ops != [] {
      NoBlankIds(disk, ops[..|ops| - 1]);
    }
  }

  function Merged(disk: Slots, ops: seq<Op>): Slots {
    Merge(disk, Local(ops).slots, Local(ops).tombstones)
  }

  lemma {:induction false} MergedLast(disk: Slots, ops: seq<Op>, id: string)
    requires id != ""
    ensures var after, last := Merged(disk, ops), LastOp(ops, id);
      match last
      case None => (id in after <==> id in disk) && (id in disk ==> after[id] == disk[id])
      case Some(op) =>
        if Clears(op) then id !in after
        else id in after && after[id] == if id in disk then Inherited(op.val.value, disk[id]) else op.val.value
  {
    LocalIsLast(ops, id);
  }

  /**
   The merged entry of an id is decided by the last call for it and by the disk: none after a call without a
   value or with a blank one; the value of the call otherwise, with the image on disk if it has none itself.
   */
  lemma {:induction false} MergeByLast(disk: Slots, ops: seq<Op>, id: string)
    requires id != ""
    ensures var after, last := Merged(disk, ops), LastOp(ops, id);
      match last
      case None => (id in after <==> id in disk) && (id in disk ==> after[id] == disk[id])
      case Some(Op(_, None)) => id !in after
      case Some(Op(_, Some(Bare(url)))) => if url == "" then id !in after else id in after && after[id] == Bare(url)
      case Some(Op(_, Some(Obj(image, frame)))) =>
        id in after && after[id] ==
          if image !in {None, Some("")} || id !in disk || disk[id] == Bare("") then Obj(image, frame)
          else match disk[id]
               case Bare(url) => Obj(Some(url), frame)
               case Obj(stored, _) => Obj(stored, frame)
  {
    MergedLast(disk, ops, id);
    var last := LastOp(ops, id);
    if last.Some? {
      LastOpIsOp(ops, id);
      match last.value.val {
        case None => assert Clears(last.value);
        case Some(Bare(url)) => assert Clears(last.value) <==> url == "";
        case Some(Obj(image, frame)) =>
          assert !Clears(last.value);
          if id in disk {
            InheritedExactly(image, frame, disk[id]);
          }
      }
    }
  }

  lemma InheritedExactly(image: Option<string>, frame: Frame, disk: Value)
    ensures Inherited(Obj(image, frame), disk) ==
      if image !in {None, Some("")} || disk == Bare("") then Obj(image, frame)
      else match disk
           case Bare(url) => Obj(Some(url), frame)
           case Obj(stored, _) => Obj(stored, frame)
  {
  }

  /** A reader sees a bare image with the default framing, and a blank one not at all. */
  lemma SlotSeen(slots: Slots, id: string)
    ensures GetSlot(slots, id) ==
      if id !in slots || slots[id] == Bare("") then None
      else match slots[id]
           case Bare(url) => Some(Obj(Some(url), Frame(1.0, 0.0, 0.0)))
           case Obj(image, frame) => Some(Obj(image, frame))
  {
  }

  /** The last call for this id left a framing without image, and the disk has an image to offer it. */
  predicate Borrows(disk: Slots, ops: seq<Op>, id: string) {
    var last := LastOp(ops, id);
    id != "" && last.Some? && !Clears(last.value)
    && var v := last.value.val.value;
       v.Obj? && !HasImage(v) && id in disk && Truthy(disk[id]) && v.u != ImageOf(disk[id])
  }

  /** An id agrees in the merge and the replay unless it borrows its image. */
  lemma {:induction false} AgreeUnlessBorrowed(disk: Slots, ops: seq<Op>, id: string)
    ensures var merged, replayed := Merged(disk, ops), Replay(disk, ops);
      ((id in merged <==> id in replayed) && (id in merged ==> merged[id] == replayed[id])) <==> !Borrows(disk, ops, id)
  {
    if id == "" {
      NoBlankIds(disk, ops);
    } else {
      MergedLast(disk, ops, id);
      ReplayIsLast(disk, ops, id);
    }
  }

  /** Hydration is the replay of the calls on the sidecar exactly when no id borrows its image from the disk. */
  lemma MergeIsReplay(disk: Slots, ops: seq<Op>)
    ensures Merged(disk, ops) == Replay(disk, ops) <==> forall id :: !Borrows(disk, ops, id)
  {
    forall id: string
      ensures ((id in Merged(disk, ops) <==> id in Replay(disk, ops))
        && (id in Merged(disk, ops) ==> Merged(disk, ops)[id] == Replay(disk, ops)[id]))
         <==> !Borrows(disk, ops, id)
    {
      AgreeUnlessBorrowed(disk, ops, id);
    }
  }

  /** In particular when every call sets an image or clears. */
  lemma {:induction false} ImagesAndClearsReplay(disk: Slots, ops: seq<Op>)
    requires forall i :: 0 <= i < |ops| ==> Clears(ops[i]) || HasImage(ops[i].val.value)
    ensures Merged(disk, ops) == Replay(disk, ops)
  {
    MergeIsReplay(disk, ops);
    forall id ensures !Borrows(disk, ops, id) {
      LastOpIsOp(ops, id);
    }
  }

  lemma {:induction false} LastOpIsOp(ops: seq<Op>, id: string)
    ensures LastOp(ops, id).Some? ==> LastOp(ops, id).value in ops && LastOp(ops, id).value.id == id
    ensures LastOp(ops, id).None? ==> forall i :: 0 <= i < |ops| ==> ops[i].id != id
  {
    if ops != [] {
      LastOpIsOp(ops[..|ops| - 1], id);
    }
  }

  /** A framing set before hydration keeps its framing and gets the image from disk. */
  lemma {:induction false} FramingKeepsImage(disk: Slots, ops: seq<Op>, id: string, frame: Frame)
    requires id != "" && LastOp(ops, id) == Some(Op(id, Some(Obj(None, frame))))
    ensures GetSlot(Merged(disk, ops), id)
      == Some(Obj(if id in disk && Truthy(disk[id]) then ImageOf(disk[id]) else None, frame))
  {
    MergedLast(disk, ops, id);
  }

  /** The exception to the replay: clearing a slot and then framing it brings back the image that was cleared. */
  lemma ClearedImageReturns(id: string, url: string, frame: Frame)
    requires id != "" && url != ""
    ensures var disk: Slots := map[id := Bare(url)];
      var ops := [Op(id, None), Op(id, Some(Obj(None, frame)))];
      Merged(disk, ops) == map[id := Obj(Some(url), frame)] && Replay(disk, ops) == map[id := Obj(None, frame)]
  {
    var disk: Slots := map[id := Bare(url)];
    var clear, framing := Op(id, None), Op(id, Some(Obj(None, frame)));
    var ops := [clear, framing];
    assert ops[..1] == [clear] && [clear][..0] == [];
    assert Local([clear]) == Memory(map[], {id});
    assert Local(ops) == Memory(map[id := Obj(None, frame)], {});
    assert Replay(disk, [clear]) == map[];
  }
}
