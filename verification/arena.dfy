/** The bump arena as a memory, the plain heap its clients believe in, and the proof that they
    cannot tell the two apart. */
module Arena {
  import opened Options
  import opened Lts
  import opened Placement

  type BoxId = nat

  /** One step of a client of the allocator. Reserving a slot and constructing the object in it
      are separate steps, so allocations made while an object is being constructed, and
      allocations of other tasks, may come between them. `Drop` gives back any number of boxes,
      constructed or (when the constructor panics) only reserved. */
  datatype Op =
    | Reserve(id: BoxId, layout: Layout)
    | Construct(id: BoxId, value: seq<Byte>)
    | Write(id: BoxId, at: nat, bytes: seq<Byte>)
    | Read(id: BoxId)
    | Drop(ids: set<BoxId>)
    | Reset

  // ---------------------------------------------------------------------------------------
  // The plain heap: no addresses, no alignment, no capacity

  datatype Cell = Cell(layout: Layout, value: Option<seq<Byte>>)

  /** `seen` lists what the `Read`s so far returned. */
  datatype Heap = Heap(cells: map<BoxId, Cell>, seen: seq<seq<Byte>>)

  function Splice<T>(s: seq<T>, at: nat, part: seq<T>): (r: seq<T>)
    requires at + |part| <= |s|
    ensures |r| == |s|
    ensures forall i :: 0 <= i < |s| ==> r[i] == if at <= i < at + |part| then part[i - at] else s[i]
  {
    s[..at] + part + s[at + |part|..]
  }

  /** What Rust lets a client do, `None` where it does not: use only boxes it holds, within
      their bounds, and only once they are constructed. `Reset` is the one operation whose
      safety contract is left to the caller: no box may be in use. */
  function HeapStep(h: Heap, op: Op): Option<Heap> {
    match op
    case Reserve(id, layout) =>
      if id !in h.cells && layout.Valid() then
        Some(h.(cells := h.cells[id := Cell(layout, None)]))
      else None
    case Construct(id, value) =>
      if id in h.cells && h.cells[id].value.None? && |value| == h.cells[id].layout.size then
        Some(h.(cells := h.cells[id := h.cells[id].(value := Some(value))]))
      else None
    case Write(id, at, bytes) =>
      if id in h.cells && h.cells[id].value.Some? && at + |bytes| <= |h.cells[id].value.value| then
        Some(h.(cells := h.cells[id := h.cells[id].(value := Some(Splice(h.cells[id].value.value, at, bytes)))]))
      else None
    case Read(id) =>
      if id in h.cells && h.cells[id].value.Some? then
        Some(h.(seen := h.seen + [h.cells[id].value.value]))
      else None
    case Drop(ids) =>
      if ids <= h.cells.Keys then Some(h.(cells := h.cells - ids)) else None
    case Reset =>
      if h.cells == map[] then Some(h) else None
  }

  const EMPTY_HEAP := Heap(map[], [])

  // What the plain heap stands for, in terms of the operations alone.

  /** The layout of box `id`, if it was reserved and not dropped since. */
  function Live(ops: seq<Op>, id: BoxId): Option<Layout> {
    if ops == [] then None else
      match ops[|ops| - 1]
      case Reserve(i, l) => if i == id then Some(l) else Live(ops[..|ops| - 1], id)
      case Drop(ids) => if id in ids then None else Live(ops[..|ops| - 1], id)
      case _ => Live(ops[..|ops| - 1], id)
  }

  /** Box `id` was constructed since it was last reserved. */
  predicate Built(ops: seq<Op>, id: BoxId) {
    ops != [] &&
    match ops[|ops| - 1]
    case Reserve(i, _) => i != id && Built(ops[..|ops| - 1], id)
    case Construct(i, _) => i == id || Built(ops[..|ops| - 1], id)
    case Drop(ids) => id !in ids && Built(ops[..|ops| - 1], id)
    case _ => Built(ops[..|ops| - 1], id)
  }

  /** What was last put into byte `k` of box `id`. */
  function LastByte(ops: seq<Op>, id: BoxId, k: nat): Byte {
    if ops == [] then 0 as Byte else
      match ops[|ops| - 1]
      case Construct(i, value) => if i == id && k < |value| then value[k] else LastByte(ops[..|ops| - 1], id, k)
      case Write(i, at, bytes) =>
        if i == id && at <= k < at + |bytes| then bytes[k - at] else LastByte(ops[..|ops| - 1], id, k)
      case _ => LastByte(ops[..|ops| - 1], id, k)
  }

  /** After `ops`, a client may do `op`. */
  ghost predicate Admits(ops: seq<Op>, op: Op) {
    match op
    case Reserve(id, l) => Live(ops, id).None? && l.Valid()
    case Construct(id, value) => Live(ops, id).Some? && !Built(ops, id) && |value| == Live(ops, id).value.size
    case Write(id, at, bytes) => Live(ops, id).Some? && Built(ops, id) && at + |bytes| <= Live(ops, id).value.size
    case Read(id) => Live(ops, id).Some? && Built(ops, id)
    case Drop(ids) => forall id :: id in ids ==> Live(ops, id).Some?
    case Reset => forall id: BoxId :: Live(ops, id).None?
  }

  ghost predicate TracksBox(h: Heap, ops: seq<Op>, id: BoxId) {
    && (id in h.cells <==> Live(ops, id).Some?)
    && (Built(ops, id) ==> Live(ops, id).Some?)
    && (id in h.cells ==>
          && h.cells[id].layout == Live(ops, id).value
          && (h.cells[id].value.Some? <==> Built(ops, id))
          && (h.cells[id].value.Some? ==>
                && |h.cells[id].value.value| == h.cells[id].layout.size
                && forall k :: 0 <= k < h.cells[id].layout.size ==> h.cells[id].value.value[k] == LastByte(ops, id, k)))
  }

  lemma StepTracksBox(h: Heap, ops: seq<Op>, op: Op, id: BoxId)
    requires TracksBox(h, ops, id) && HeapStep(h, op).Some?
    ensures TracksBox(HeapStep(h, op).value, ops + [op], id)
  {
    assert (ops + [op])[..|ops|] == ops;
  }

  lemma {:induction false} HeapTracks(ops: seq<Op>)
    requires Exec(HeapStep, EMPTY_HEAP, ops).Some?
    ensures forall id: BoxId :: TracksBox(Exec(HeapStep, EMPTY_HEAP, ops).value, ops, id)
  {
    if ops != [] {
      var front, op := ops[..|ops| - 1], ops[|ops| - 1];
      HeapTracks(front);
      assert ops == front + [op];
      forall id: BoxId ensures TracksBox(Exec(HeapStep, EMPTY_HEAP, ops).value, ops, id) {
        StepTracksBox(Exec(HeapStep, EMPTY_HEAP, front).value, front, op, id);
      }
    }
  }

  /** The plain heap goes along with exactly what a client may do. */
  lemma HeapAdmitsExactly(ops: seq<Op>, op: Op)
    requires Exec(HeapStep, EMPTY_HEAP, ops).Some?
    ensures Exec(HeapStep, EMPTY_HEAP, ops + [op]).Some? <==> Admits(ops, op)
  {
    HeapTracks(ops);
    assert (ops + [op])[..|ops|] == ops;
    var h := Exec(HeapStep, EMPTY_HEAP, ops).value;
    forall id: BoxId ensures id in h.cells <==> Live(ops, id).Some? {
      assert TracksBox(h, ops, id);
    }
    if op.Reset? {
      assert h.cells.Keys == {} <==> h.cells == map[];
    } else if !op.Drop? {
      assert TracksBox(h, ops, op.id);
    }
  }

  // ---------------------------------------------------------------------------------------
  // The arena: bytes at an address, and an offset

  /** A pointer and the layout of what it points to; for a zero-size type the pointer dangles. */
  datatype Slot = Slot(addr: nat, layout: Layout)

  datatype Store = Store(base: nat, mem: seq<Byte>, offset: nat) {
    predicate Valid() {
      offset <= |mem|
    }

    predicate Contains(slot: Slot) {
      slot.layout.size > 0 ==> base <= slot.addr && slot.addr + slot.layout.size <= base + |mem|
    }

    /** `None` is the panic "Out of bump memory". */
    function Allocate(l: Layout): Option<(Store, Slot)>
      requires Valid() && l.Valid()
    {
      var end := Bump1(base, |mem|, offset, l);
      if end.None? then None
      else if l.size == 0 then Some((this, Slot(l.align, l)))
      else Some((this.(offset := end.value), Slot(base + end.value - l.size, l)))
    }

    function Load(slot: Slot): (v: seq<Byte>)
      requires Contains(slot)
      ensures |v| == slot.layout.size
    {
      if slot.layout.size == 0 then [] else mem[slot.addr - base..slot.addr - base + slot.layout.size]
    }

    function Put(slot: Slot, at: nat, bytes: seq<Byte>): Store
      requires Contains(slot) && at + |bytes| <= slot.layout.size
    {
      if bytes == [] then this else this.(mem := Splice(mem, slot.addr - base + at, bytes))
    }
  }

  /** The arena together with the boxes its clients hold. */
  datatype Machine = Machine(store: Store, slots: map<BoxId, Slot>, seen: seq<seq<Byte>>)

  /** What really happens. Nothing here looks at the plain heap; in particular `Reset` happens
      whether or not boxes are live. `None` is a panic (or an access outside the arena). */
  function MachineStep(m: Machine, op: Op): Option<Machine> {
    match op
    case Reserve(id, layout) =>
      if !layout.Valid() || !m.store.Valid() then None else
        var r := m.store.Allocate(layout);
        if r.None? then None else Some(m.(store := r.value.0, slots := m.slots[id := r.value.1]))
    case Construct(id, value) =>
      if id in m.slots && m.store.Contains(m.slots[id]) && |value| == m.slots[id].layout.size then
        Some(m.(store := m.store.Put(m.slots[id], 0, value)))
      else None
    case Write(id, at, bytes) =>
      if id in m.slots && m.store.Contains(m.slots[id]) && at + |bytes| <= m.slots[id].layout.size then
        Some(m.(store := m.store.Put(m.slots[id], at, bytes)))
      else None
    case Read(id) =>
      if id in m.slots && m.store.Contains(m.slots[id]) then
        Some(m.(seen := m.seen + [m.store.Load(m.slots[id])]))
      else None
    case Drop(ids) => Some(m.(slots := m.slots - ids))
    case Reset => Some(m.(store := m.store.(offset := 0)))
  }

  /** A new arena at any address; its memory is uninitialised, so its contents are arbitrary. */
  function NewMachine(base: nat, garbage: seq<Byte>): Machine {
    Machine(Store(base, garbage, 0), map[], [])
  }

  // ---------------------------------------------------------------------------------------
  // The refinement

  predicate Apart(a: Slot, b: Slot) {
    a.layout.size == 0 || b.layout.size == 0 ||
    a.addr + a.layout.size <= b.addr || b.addr + b.layout.size <= a.addr
  }

  /** A handed-out slot: aligned, inside the arena and below the offset. */
  predicate Placed(s: Store, slot: Slot) {
    && slot.layout.Valid()
    && slot.addr % slot.layout.align == 0
    && (slot.layout.size > 0 ==> s.base <= slot.addr && slot.addr + slot.layout.size <= s.base + s.offset)
  }

  ghost predicate Sound(m: Machine) {
    && m.store.Valid()
    && (forall id :: id in m.slots ==> Placed(m.store, m.slots[id]))
    && (forall i, j :: i in m.slots && j in m.slots && i != j ==> Apart(m.slots[i], m.slots[j]))
  }

  ghost predicate Agrees(m: Machine, h: Heap) {
    && m.slots.Keys == h.cells.Keys
    && m.seen == h.seen
    && (forall id :: id in h.cells ==> m.slots[id].layout == h.cells[id].layout)
    && (forall id :: id in h.cells && h.cells[id].value.Some? ==>
          m.store.Contains(m.slots[id]) && m.store.Load(m.slots[id]) == h.cells[id].value.value)
  }

  ghost predicate Refines(m: Machine, h: Heap) {
    Sound(m) && Agrees(m, h)
  }

  /** The allocated slot is new: aligned and above every slot handed out before. */
  lemma AllocatePlaces(s: Store, l: Layout)
    requires s.Valid() && l.Valid() && s.Allocate(l).Some?
    ensures var (s', slot) := s.Allocate(l).value;
            && s'.Valid() && Placed(s', slot) && slot.layout == l
            && s'.base == s.base && s'.mem == s.mem && s.offset <= s'.offset
            && (l.size > 0 ==> s.base + s.offset <= slot.addr)
  {
    QuotientUnique(l.align, l.align, 1, 0);
  }

  lemma PutChangesOneSlot(s: Store, slot: Slot, at: nat, bytes: seq<Byte>, other: Slot)
    requires s.Contains(slot) && s.Contains(other) && at + |bytes| <= slot.layout.size
    ensures s.Put(slot, at, bytes).Contains(other)
    ensures Apart(slot, other) ==> s.Put(slot, at, bytes).Load(other) == s.Load(other)
    ensures s.Put(slot, at, bytes).Load(slot) == Splice(s.Load(slot), at, bytes)
  {
    var s' := s.Put(slot, at, bytes);
    assert s'.Load(slot) == Splice(s.Load(slot), at, bytes);
    assert Apart(slot, other) ==> s'.Load(other) == s.Load(other);
  }

  lemma PutRefines(m: Machine, h: Heap, id: BoxId, at: nat, bytes: seq<Byte>, value: seq<Byte>)
    requires Refines(m, h) && id in h.cells
    requires at + |bytes| <= h.cells[id].layout.size
    requires value == Splice(m.store.Load(m.slots[id]), at, bytes)
    ensures Refines(m.(store := m.store.Put(m.slots[id], at, bytes)),
                    h.(cells := h.cells[id := h.cells[id].(value := Some(value))]))
  {
    var slot := m.slots[id];
    PutChangesOneSlot(m.store, slot, at, bytes, slot);
    forall i | i in h.cells && i != id && h.cells[i].value.Some?
      ensures m.store.Put(slot, at, bytes).Contains(m.slots[i])
      ensures m.store.Put(slot, at, bytes).Load(m.slots[i]) == h.cells[i].value.value
    {
      PutChangesOneSlot(m.store, slot, at, bytes, m.slots[i]);
    }
  }

  lemma ReserveIsSound(m: Machine, id: BoxId, l: Layout)
    requires Sound(m) && id !in m.slots && l.Valid()
    requires m.store.Allocate(l).Some?
    ensures var (s', slot) := m.store.Allocate(l).value; Sound(m.(store := s', slots := m.slots[id := slot]))
  {
    AllocatePlaces(m.store, l);
    var (s', slot) := m.store.Allocate(l).value;
    forall i | i in m.slots ensures Placed(s', m.slots[i]) && Apart(m.slots[i], slot) && Apart(slot, m.slots[i]) {
      assert Placed(m.store, m.slots[i]);
    }
  }

  lemma ReserveRefines(m: Machine, h: Heap, id: BoxId, l: Layout)
    requires Refines(m, h) && id !in h.cells && l.Valid()
    requires m.store.Allocate(l).Some?
    ensures var (s', slot) := m.store.Allocate(l).value;
            Refines(m.(store := s', slots := m.slots[id := slot]), h.(cells := h.cells[id := Cell(l, None)]))
  {
    AllocatePlaces(m.store, l);
    ReserveIsSound(m, id, l);
    var (s', slot) := m.store.Allocate(l).value;
    forall i | i in h.cells && h.cells[i].value.Some?
      ensures s'.Contains(m.slots[i]) && s'.Load(m.slots[i]) == h.cells[i].value.value
    {
      assert m.store.Contains(m.slots[i]);
    }
  }

  lemma DropRefines(m: Machine, h: Heap, ids: set<BoxId>)
    requires Refines(m, h) && ids <= h.cells.Keys
    ensures Refines(MachineStep(m, Drop(ids)).value, HeapStep(h, Drop(ids)).value)
  {
    var m' := MachineStep(m, Drop(ids)).value;
    assert forall i :: i in m'.slots ==> i in m.slots && m'.slots[i] == m.slots[i];
  }

  /** One step: where the plain heap allows `op`, the arena either panics, which only a
      `Reserve` that does not fit can do, or does the same thing. */
  lemma StepRefines(m: Machine, h: Heap, op: Op)
    requires Refines(m, h) && HeapStep(h, op).Some?
    ensures MachineStep(m, op).None? <==>
              op.Reserve? && Bump1(m.store.base, |m.store.mem|, m.store.offset, op.layout).None?
    ensures MachineStep(m, op).Some? ==> Refines(MachineStep(m, op).value, HeapStep(h, op).value)
  {
    match op
    case Reserve(id, layout) =>
      if m.store.Allocate(layout).Some? {
        ReserveRefines(m, h, id, layout);
      }
    case Construct(id, value) =>
      assert m.store.Contains(m.slots[id]);
      assert Splice(m.store.Load(m.slots[id]), 0, value) == value;
      PutRefines(m, h, id, 0, value, value);
    case Write(id, at, bytes) =>
      PutRefines(m, h, id, at, bytes, Splice(h.cells[id].value.value, at, bytes));
    case Read(id) =>
    case Drop(ids) =>
      DropRefines(m, h, ids);
    case Reset =>
      assert m.slots == map[];
  }

  /** The main result. Take any run the plain heap allows, from any base address, over any
      initial garbage. If the arena got through it, every live slot is aligned, inside the
      arena, below the offset and apart from the others, and every read, past and future,
      returns what the plain heap returns. */
  lemma {:induction false} ArenaRefinesHeap(base: nat, garbage: seq<Byte>, ops: seq<Op>)
    requires Exec(HeapStep, EMPTY_HEAP, ops).Some?
    requires Exec(MachineStep, NewMachine(base, garbage), ops).Some?
    ensures Refines(Exec(MachineStep, NewMachine(base, garbage), ops).value, Exec(HeapStep, EMPTY_HEAP, ops).value)
    ensures Exec(MachineStep, NewMachine(base, garbage), ops).value.seen == Exec(HeapStep, EMPTY_HEAP, ops).value.seen
  {
    if ops != [] {
      var front := ops[..|ops| - 1];
      ArenaRefinesHeap(base, garbage, front);
      StepRefines(Exec(MachineStep, NewMachine(base, garbage), front).value,
                  Exec(HeapStep, EMPTY_HEAP, front).value, ops[|ops| - 1]);
    }
  }

  /** In terms of the operations alone: a box that may be read can be read, and each byte that comes
      back is the one last put there, by the constructor or by a write through that box. */
  lemma ReadsReturnLastWritten(base: nat, garbage: seq<Byte>, ops: seq<Op>, id: BoxId) returns (v: seq<Byte>)
    requires Exec(HeapStep, EMPTY_HEAP, ops).Some? && Admits(ops, Read(id))
    requires Exec(MachineStep, NewMachine(base, garbage), ops).Some?
    ensures Exec(MachineStep, NewMachine(base, garbage), ops + [Read(id)]).Some?
    ensures Exec(MachineStep, NewMachine(base, garbage), ops + [Read(id)]).value.seen
            == Exec(MachineStep, NewMachine(base, garbage), ops).value.seen + [v]
    ensures |v| == Live(ops, id).value.size && forall k :: 0 <= k < |v| ==> v[k] == LastByte(ops, id, k)
  {
    HeapAdmitsExactly(ops, Read(id));
    HeapTracks(ops);
    assert (ops + [Read(id)])[..|ops|] == ops;
    OnlyExhaustionStops(base, garbage, ops, Read(id));
    ArenaRefinesHeap(base, garbage, ops);
    ArenaRefinesHeap(base, garbage, ops + [Read(id)]);
    var h := Exec(HeapStep, EMPTY_HEAP, ops).value;
    assert TracksBox(h, ops, id);
    v := h.cells[id].value.value;
  }

  /** The arena never stops an allowed run except by an allocation that does not fit: take the
      longest prefix it gets through; the next step is a `Reserve` with no room for it. */
  lemma OnlyExhaustionStops(base: nat, garbage: seq<Byte>, ops: seq<Op>, op: Op)
    requires Exec(HeapStep, EMPTY_HEAP, ops + [op]).Some?
    requires Exec(MachineStep, NewMachine(base, garbage), ops).Some?
    ensures var m := Exec(MachineStep, NewMachine(base, garbage), ops).value;
            m.store.Valid() &&
            (Exec(MachineStep, NewMachine(base, garbage), ops + [op]).None? <==>
              op.Reserve? && op.layout.Valid() && Bump1(m.store.base, |m.store.mem|, m.store.offset, op.layout).None?)
  {
    assert (ops + [op])[..|ops|] == ops;
    ArenaRefinesHeap(base, garbage, ops);
    StepRefines(Exec(MachineStep, NewMachine(base, garbage), ops).value,
                Exec(HeapStep, EMPTY_HEAP, ops).value, op);
  }

  /** The contract of `reset` is needed: resetting under a live box lets the next box overwrite
      it, so that reading the first returns the bytes of the second. */
  lemma ResetUnderLiveBoxCorrupts(base: nat, garbage: seq<Byte>, l: Layout, first: seq<Byte>, second: seq<Byte>)
    requires l.Valid() && 0 < l.size == |first| == |second|
    requires Pad(base, l.align) + l.size <= |garbage|
    ensures var ops := [Reserve(0, l), Construct(0, first), Reset, Reserve(1, l), Construct(1, second), Read(0)];
            && Exec(MachineStep, NewMachine(base, garbage), ops).Some?
            && Exec(MachineStep, NewMachine(base, garbage), ops).value.seen == [second]
  {
    var m0 := NewMachine(base, garbage);
    var slot := Slot(base + Pad(base, l.align), l);
    var m1 := MachineStep(m0, Reserve(0, l)).value;
    var m2 := MachineStep(m1, Construct(0, first)).value;
    var m3 := MachineStep(m2, Reset).value;
    var m4 := MachineStep(m3, Reserve(1, l)).value;
    assert m4.slots == map[0 := slot, 1 := slot];
    var m5 := MachineStep(m4, Construct(1, second)).value;
    assert m5.store.Load(slot) == second;
    var m6 := MachineStep(m5, Read(0)).value;
    TrailRuns(MachineStep, [m0, m1, m2, m3, m4, m5, m6],
              [Reserve(0, l), Construct(0, first), Reset, Reserve(1, l), Construct(1, second), Read(0)]);
  }

  /** The layouts reserved since the latest reset, in order. */
  function SinceReset(ops: seq<Op>): seq<Layout> {
    if ops == [] || ops[|ops| - 1].Reset? then []
    else
      SinceReset(ops[..|ops| - 1]) + if ops[|ops| - 1].Reserve? then [ops[|ops| - 1].layout] else []
  }

  lemma StoreMoves(m: Machine, op: Op)
    requires MachineStep(m, op).Some? && m.store.Valid()
    ensures var s, s' := m.store, MachineStep(m, op).value.store;
            && s'.Valid() && s'.base == s.base && |s'.mem| == |s.mem|
            && (op.Reset? ==> s'.offset == 0)
            && (op.Reserve? ==> op.layout.Valid() && Bump1(s.base, |s.mem|, s.offset, op.layout) == Some(s'.offset))
            && (!op.Reset? && !op.Reserve? ==> s'.offset == s.offset)
  {
  }

  /** The offset of an arena in which `ls` were reserved since the latest reset. */
  ghost predicate Reserved(s: Store, base: nat, cap: nat, ls: seq<Layout>) {
    && s.Valid() && s.base == base && |s.mem| == cap
    && AllValid(ls) && BumpAll(base, cap, 0, ls) == Some(s.offset)
  }

  lemma StepKeepsReserved(m: Machine, op: Op, base: nat, cap: nat, ls: seq<Layout>)
    requires MachineStep(m, op).Some? && Reserved(m.store, base, cap, ls)
    ensures Reserved(MachineStep(m, op).value.store, base, cap,
                     if op.Reset? then [] else ls + if op.Reserve? then [op.layout] else [])
  {
    StoreMoves(m, op);
    hide MachineStep;
    if op.Reserve? {
      BumpAllSnoc(base, cap, 0, ls, op.layout);
    } else {
      assert ls + [] == ls;
    }
  }

  /** The offset depends on nothing but these. */
  lemma {:induction false} OffsetIsBump(base: nat, garbage: seq<Byte>, ops: seq<Op>)
    requires Exec(MachineStep, NewMachine(base, garbage), ops).Some?
    ensures Reserved(Exec(MachineStep, NewMachine(base, garbage), ops).value.store, base, |garbage|, SinceReset(ops))
  {
    if ops != [] {
      hide MachineStep, Reserved;
      var front := ops[..|ops| - 1];
      OffsetIsBump(base, garbage, front);
      StepKeepsReserved(Exec(MachineStep, NewMachine(base, garbage), front).value, ops[|ops| - 1],
                        base, |garbage|, SinceReset(front));
    }
  }
}
