/** The allocator itself: an offset that moves over a fixed array of bytes. */
module BumpAllocator {
  import opened Options
  import opened Placement
  import opened Arena

  /** A stretch of the arena. */
  datatype Slice = Slice(addr: nat, len: nat)

  /** `slice::align_to_mut` from bytes to items of layout `l`: the number of leading bytes, of
      whole items, and of trailing bytes. */
  function AlignTo(buf: Slice, l: Layout): (parts: (nat, nat, nat))
    requires l.Valid() && l.size > 0
    ensures parts.0 + parts.1 * l.size + parts.2 == buf.len
  {
    var pad := Pad(buf.addr, l.align);
    if buf.len < pad then (buf.len, 0, 0)
    else (pad, (buf.len - pad) / l.size, (buf.len - pad) % l.size)
  }

  /** The aligned items cut off the front of a buffer, and what is left of it. */
  datatype Cut = Cut(items: Slice, count: nat, rest: Slice)

  /** Cut `count` items off the front of `buf`; `None` is the panic "Out of bump memory".
      The three assertions in the body are the ones the code makes at run time. */
  method AlignMin(buf: Slice, l: Layout, count: nat) returns (r: Option<Cut>)
    requires l.Valid()
    ensures count == 0 || l.size == 0 ==> r.Some? && r.value.items.len == 0 && r.value.rest == buf
    ensures count > 0 && l.size > 0 ==>
              (r.Some? <==> Pad(buf.addr, l.align) + count * l.size <= buf.len)
    ensures count > 0 && l.size > 0 && r.Some? ==>
              && r.value.count == count
              && r.value.items == Slice(buf.addr + Pad(buf.addr, l.align), count * l.size)
              && r.value.rest.addr == r.value.items.addr + r.value.items.len
              && r.value.rest.addr + r.value.rest.len == buf.addr + buf.len
    ensures r.Some? ==> r.value.items.addr % l.align == 0
  {
    if count == 0 || l.size == 0 {
      QuotientUnique(l.align, l.align, 1, 0);
      return Some(Cut(Slice(l.align, 0), 0, buf));
    }

    var (lead0, items0, _) := AlignTo(buf, l);
    DivBound(buf.len - lead0, l.size, count);
    ProductAtLeast(count, l.size);
    if items0 < count {
      return None;
    }

    var itemsSize := count * l.size;
    var buf0 := Slice(buf.addr, lead0 + itemsSize);
    assert buf0.len <= buf.len;
    var rest := Slice(buf.addr + buf0.len, buf.len - buf0.len);

    var (lead, items, tail) := AlignTo(buf0, l);
    QuotientUnique(itemsSize, l.size, count, 0);
    assert lead0 == lead;
    assert items == count;
    assert tail == 0;
    r := Some(Cut(Slice(buf0.addr + lead, itemsSize), items, rest));
  }

  class Bump {
    const base: nat
    const memory: array<Byte>
    var offset: nat

    ghost predicate Valid()
      reads this
    {
      offset <= memory.Length
    }

    ghost function View(): (s: Store)
      reads this, memory
      requires Valid()
      ensures s.Valid()
    {
      Store(base, memory[..], offset)
    }

    constructor (base: nat, n: nat)
      ensures Valid() && fresh(memory) && memory.Length == n
      ensures View().base == base && View().offset == 0
    {
      this.base := base;
      memory := new Byte[n];
      offset := 0;
    }

    /** Make all memory available again. Moves the offset and touches nothing else; that this is
        safe is for the caller to know. */
    method Reset()
      requires Valid()
      modifies this
      ensures Valid() && View() == old(View()).(offset := 0)
    {
      offset := 0;
    }

    /** Reserve an aligned slot that no other box shares. */
    method ReserveSlot(l: Layout) returns (r: Option<Slot>)
      requires Valid() && l.Valid()
      modifies this
      ensures Valid()
      ensures r.Some? <==> old(View()).Allocate(l).Some?
      ensures r.Some? ==> (View(), r.value) == old(View()).Allocate(l).value
      ensures r.None? ==> View() == old(View())
    {
      var remaining := Slice(base + offset, memory.Length - offset);
      var cut := AlignMin(remaining, l, 1);
      if cut.None? {
        return None;
      }
      offset := offset + remaining.len - cut.value.rest.len;
      r := Some(Slot(if l.size == 0 then l.align else cut.value.items.addr, l));
    }

    /** Write through a box. */
    method WriteBox(slot: Slot, at: nat, bytes: seq<Byte>)
      requires Valid() && View().Contains(slot) && at + |bytes| <= slot.layout.size
      modifies memory
      ensures View() == old(View()).Put(slot, at, bytes)
    {
      for i := 0 to |bytes|
        invariant forall k :: 0 <= k < memory.Length ==>
                    memory[k] == if 0 <= k - (slot.addr - base + at) < i
                                 then bytes[k - (slot.addr - base + at)] else old(memory[k])
      {
        memory[slot.addr - base + at + i] := bytes[i];
      }
      assert memory[..] == old(View()).Put(slot, at, bytes).mem;
    }

    /** Read through a box. */
    method ReadBox(slot: Slot) returns (v: seq<Byte>)
      requires Valid() && View().Contains(slot)
      ensures v == View().Load(slot)
    {
      if slot.layout.size == 0 {
        return [];
      }
      v := memory[slot.addr - base..slot.addr - base + slot.layout.size];
    }

    /** Reserve a slot and build the object in it. */
    method AllocWith(l: Layout, value: seq<Byte>) returns (r: Option<Slot>)
      requires Valid() && l.Valid() && |value| == l.size
      modifies this, memory
      ensures Valid()
      ensures r.Some? <==> old(View()).Allocate(l).Some?
      ensures r.None? ==> View() == old(View())
      ensures r.Some? ==> View() == Allocated(old(View()), l, value) && r.value == old(View()).Allocate(l).value.1
    {
      r := ReserveSlot(l);
      if r.Some? {
        AllocatePlaces(old(View()), l);
        WriteBox(r.value, 0, value);
      }
    }

    /** A responder with `q` handlers boxes one future per handler. `None` is the panic. The
        handlers are laid out back to back, after one leading pad. */
    method BoxHandlers(q: nat, handler: Layout) returns (r: Option<seq<Slot>>)
      requires Valid() && handler.Valid()
      modifies this
      ensures Valid() && View().base == old(View().base) && View().mem == old(View().mem)
      ensures r.Some? <==> AfterRepeat(base, old(offset), handler, q) <= memory.Length
      ensures r.Some? ==>
                && |r.value| == q
                && offset == AfterRepeat(base, old(offset), handler, q)
                && (forall i :: 0 <= i < q ==> r.value[i] == NthSlot(base, old(offset), handler, i))
                && (forall i :: 0 <= i < q ==> r.value[i].layout == handler && Placed(View(), r.value[i]))
                && (forall i, j :: 0 <= i < j < q ==> Apart(r.value[i], r.value[j]))
      ensures r.Some? ==>
                forall i, other: Slot :: 0 <= i < q && Placed(old(View()), other) ==> Apart(r.value[i], other)
    {
      var handlers: seq<Slot> := [];
      ghost var from := offset;
      for id := 0 to q
        invariant Valid() && View().base == old(View().base) && View().mem == old(View().mem)
        invariant |handlers| == id
        invariant offset == AfterRepeat(base, from, handler, id)
        invariant forall i :: 0 <= i < id ==> handlers[i] == NthSlot(base, from, handler, i)
      {
        AfterRepeatStep(base, memory.Length, from, handler, id);
        assert (id + 1) * handler.size == id * handler.size + handler.size;
        var box := ReserveSlot(handler);
        if box.None? {
          AfterRepeatGrows(base, from, handler, id + 1, q);
          return None;
        }
        handlers := handlers + [box.value];
      }
      NthSlotsPlaced(old(View()), View(), handler, q);
      r := Some(handlers);
    }
  }

  /** Where allocation number `i` of one type goes, counted from `offset`. */
  function NthSlot(base: nat, offset: nat, l: Layout, i: nat): Slot
    requires l.Valid()
  {
    if l.size == 0 then Slot(l.align, l)
    else Slot(base + offset + Pad(base + offset, l.align) + i * l.size, l)
  }

  lemma NthSlotPlaced(base: nat, offset: nat, l: Layout, i: nat, j: nat)
    requires l.Valid() && i < j
    ensures NthSlot(base, offset, l, i).addr % l.align == 0
    ensures l.size > 0 ==> base + offset <= NthSlot(base, offset, l, i).addr
    ensures l.size > 0 ==> NthSlot(base, offset, l, i).addr + l.size <= NthSlot(base, offset, l, j).addr
    ensures l.size > 0 ==> NthSlot(base, offset, l, i).addr + l.size <= base + AfterRepeat(base, offset, l, j)
  {
    if l.size == 0 {
      QuotientUnique(l.align, l.align, 1, 0);
    } else {
      assert j * l.size == i * l.size + (j - i) * l.size;
      ProductAtLeast(j - i, l.size);
      MultipleOfAlign(l, i);
      SumOfMultiples(base + offset + Pad(base + offset, l.align), i * l.size, l.align);
    }
  }

  /** The slots of `q` allocations of one type: in the arena, aligned, apart from each other and
      from all there were before. */
  lemma NthSlotsPlaced(before: Store, after: Store, l: Layout, q: nat)
    requires l.Valid() && after.base == before.base
    requires after.offset == AfterRepeat(before.base, before.offset, l, q)
    ensures forall i :: 0 <= i < q ==> Placed(after, NthSlot(before.base, before.offset, l, i))
    ensures forall i, j :: 0 <= i < j < q ==>
              Apart(NthSlot(before.base, before.offset, l, i), NthSlot(before.base, before.offset, l, j))
    ensures forall i, other: Slot :: 0 <= i < q && Placed(before, other) ==>
              Apart(NthSlot(before.base, before.offset, l, i), other)
  {
    forall i, j | 0 <= i < j < q
      ensures Apart(NthSlot(before.base, before.offset, l, i), NthSlot(before.base, before.offset, l, j))
    {
      NthSlotPlaced(before.base, before.offset, l, i, j);
    }
    forall i | 0 <= i < q
      ensures Placed(after, NthSlot(before.base, before.offset, l, i))
      ensures forall other: Slot :: Placed(before, other) ==> Apart(NthSlot(before.base, before.offset, l, i), other)
    {
      NthSlotPlaced(before.base, before.offset, l, i, q);
    }
  }

  function Allocated(s: Store, l: Layout, value: seq<Byte>): Store
    requires s.Valid() && l.Valid() && |value| == l.size && s.Allocate(l).Some?
  {
    AllocatePlaces(s, l);
    var (s', slot) := s.Allocate(l).value;
    s'.Put(slot, 0, value)
  }

  /** The new box holds its value; every box handed out before keeps its own. */
  lemma AllocationIsLocal(s: Store, l: Layout, value: seq<Byte>, other: Slot)
    requires s.Valid() && l.Valid() && |value| == l.size && s.Allocate(l).Some?
    requires Placed(s, other)
    ensures var after := Allocated(s, l, value);
            var slot := s.Allocate(l).value.1;
            && after.Valid() && Placed(after, slot) && Placed(after, other) && Apart(slot, other)
            && after.Load(slot) == value
            && after.Load(other) == s.Load(other)
  {
    AllocatePlaces(s, l);
    var (s', slot) := s.Allocate(l).value;
    PutChangesOneSlot(s', slot, 0, value, other);
    PutChangesOneSlot(s', slot, 0, value, slot);
    assert Splice(s'.Load(slot), 0, value) == value;
  }

  // ---------------------------------------------------------------------------------------
  // The boxes of one whole run

  /** Layouts of the futures that one Ethernet run boxes: the root, its four tasks, and below the
      Interaction Model task the responder with its two halves and their handlers. */
  datatype EthBoxes = EthBoxes(root: Layout, net: Layout, mdns: Layout, im: Layout, user: Layout,
                               responder: Layout, actual: Layout, busy: Layout,
                               handler: Layout, busyHandler: Layout)
  {
    function Singles(): (ls: seq<Layout>) {
      [root, net, mdns, im, user, responder, actual, busy]
    }

    predicate Valid() {
      AllValid(Singles()) && handler.Valid() && busyHandler.Valid()
    }

    /** Room for all of them, with the worst paddings. */
    function Room(handlers: nat, busyHandlers: nat): nat
      requires Valid()
    {
      Budget(Singles()) + handlers * Worst(handler) + busyHandlers * Worst(busyHandler)
    }

    function Requests(handlers: nat, busyHandlers: nat): seq<Layout> {
      Singles() + Repeat(handler, handlers) + Repeat(busyHandler, busyHandlers)
    }
  }

  function Worst(l: Layout): nat
    requires l.Valid()
  {
    l.size + l.align - 1
  }

  lemma {:induction false} BudgetOfRepeat(l: Layout, k: nat)
    requires l.Valid()
    ensures AllValid(Repeat(l, k)) && Budget(Repeat(l, k)) == k * Worst(l)
  {
    if k > 0 {
      assert Repeat(l, k)[1..] == Repeat(l, k - 1);
      BudgetOfRepeat(l, k - 1);
      assert k * Worst(l) == Worst(l) + (k - 1) * Worst(l);
    }
  }

  lemma RoomIsBudget(b: EthBoxes, handlers: nat, busyHandlers: nat)
    requires b.Valid()
    ensures AllValid(b.Requests(handlers, busyHandlers))
    ensures Budget(b.Requests(handlers, busyHandlers)) == b.Room(handlers, busyHandlers)
  {
    BudgetOfRepeat(b.handler, handlers);
    BudgetOfRepeat(b.busyHandler, busyHandlers);
    BudgetSplit(b.Singles(), Repeat(b.handler, handlers));
    BudgetSplit(b.Singles() + Repeat(b.handler, handlers), Repeat(b.busyHandler, busyHandlers));
  }

  /** An arena of this size is enough for an Ethernet run whatever the order in which the nested
      futures are first polled, however many of them are, and wherever the arena lies. */
  lemma EthRunNeverPanics(b: EthBoxes, handlers: nat, busyHandlers: nat, base: nat, cap: nat, order: seq<Layout>)
    requires b.Valid()
    requires multiset(order) <= multiset(b.Requests(handlers, busyHandlers))
    requires b.Room(handlers, busyHandlers) <= cap
    ensures AllValid(order) && BumpAll(base, cap, 0, order).Some?
  {
    RoomIsBudget(b, handlers, busyHandlers);
    NoPollOrderPanics(base, cap, b.Requests(handlers, busyHandlers), order);
  }
}
