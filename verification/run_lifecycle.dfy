/** Any number of callers of `run` / `run_coex` on one stack, and the single arena they share.

    `run` takes the run lock, on wireless stacks also the lock of the networks store, installs a
    scope guard that resets the arena, resets the transport, boxes the root future and awaits it.
    Whatever way it is left (return, error, panic, or its future dropped at an await point), its
    locals are dropped in reverse order. The root box owns, directly or through nested futures,
    every other box; dropping a box drops what it owns. */
module RunLifecycle {
  import opened Options
  import opened Lts
  import opened Placement
  import opened Arena
  import opened BumpAllocator

  type CallerId = nat

  /** Where one call of `run` stands. From `DropRoot` on it is being unwound. */
  datatype Pc =
    | NotCalled
    | AwaitRunLock
    | AwaitNetworks
    | InstallGuard
    | ResetTransport
    | BoxRoot
    | Running(root: BoxId)
    | DropRoot(root: BoxId)
    | RunGuard
    | ReleaseNetworks
    | ReleaseRunLock
    | Done
  {
    predicate HoldsRunLock() {
      !NotCalled? && !AwaitRunLock? && !Done?
    }

    predicate HoldsNetworks() {
      HoldsRunLock() && !AwaitNetworks? && !ReleaseRunLock?
    }

    predicate HasRoot() {
      Running? || DropRoot?
    }
  }

  function PcIn(pcs: map<CallerId, Pc>, c: CallerId): Pc {
    if c in pcs then pcs[c] else NotCalled
  }

  /** A box lives in the frame of `run` (the root box) or in the future held by another box. */
  datatype Owner = Frame(caller: CallerId) | Inside(parent: BoxId)

  /** `machine` is the arena as it really is. `heap` is history: the plain heap that the calls
      believe in; so are `ops`, the operations on it so far. */
  datatype Stack = Stack(
    wireless: bool,
    runLock: Option<CallerId>,
    networks: Option<CallerId>,
    pcs: map<CallerId, Pc>,
    owner: map<BoxId, Owner>,
    nextBox: BoxId,
    machine: Machine,
    heap: Heap,
    ops: seq<Op>)
  {
    function At(c: CallerId): Pc {
      PcIn(pcs, c)
    }

    function Goto(c: CallerId, pc: Pc): Stack {
      this.(pcs := pcs[c := pc])
    }

    /** Perform an operation that Rust's ownership rules admit; `None` where they do not, or where
        the arena does not go along. */
    function Perform(op: Op): Option<Stack> {
      var h, m := HeapStep(heap, op), MachineStep(machine, op);
      if h.Some? && m.Some? then Some(this.(heap := h.value, machine := m.value, ops := ops + [op])) else None
    }

    /** The arena has room for a box, or panics with "Out of bump memory". */
    predicate Fits(l: Layout) {
      MachineStep(machine, Reserve(nextBox, l)).Some?
    }

    function NewBox(o: Owner, l: Layout): Option<Stack> {
      this.(owner := owner[nextBox := o], nextBox := nextBox + 1).Perform(Reserve(nextBox, l))
    }

    function DropTree(id: BoxId): Option<Stack> {
      this.(owner := owner - Tree(owner, id)).Perform(Drop(Tree(owner, id)))
    }

    /** After the guard, or instead of it when it was not installed yet. */
    function NextRelease(): Pc {
      if wireless then ReleaseNetworks else ReleaseRunLock
    }
  }

  predicate Under(owner: map<BoxId, Owner>, id: BoxId, top: BoxId)
    decreases id
  {
    id == top || (id in owner && owner[id].Inside? && owner[id].parent < id && Under(owner, owner[id].parent, top))
  }

  /** A box and all that it owns. */
  function Tree(owner: map<BoxId, Owner>, top: BoxId): set<BoxId> {
    set id | id in owner && Under(owner, id, top)
  }

  datatype Event =
    | Call(c: CallerId)
    | LockRun(c: CallerId)
    | LockNetworks(c: CallerId)
    | Guard(c: CallerId)
    | Transport(c: CallerId, ok: bool)
    | Root(c: CallerId, layout: Layout)
    | Box(c: CallerId, parent: BoxId, layout: Layout)
    | Use(c: CallerId, op: Op)
    | DropBox(c: CallerId, id: BoxId)
    | Leave(c: CallerId)
    | Unwind(c: CallerId)

  function Step(s: Stack, e: Event): Option<Stack> {
    match e
    case Call(c) =>
      if s.At(c).NotCalled? then Some(s.Goto(c, AwaitRunLock)) else None
    case LockRun(c) =>
      if s.At(c).AwaitRunLock? && s.runLock.None? then
        Some(s.(runLock := Some(c)).Goto(c, if s.wireless then AwaitNetworks else InstallGuard))
      else None
    case LockNetworks(c) =>
      if s.At(c).AwaitNetworks? && s.networks.None? then
        Some(s.(networks := Some(c)).Goto(c, InstallGuard))
      else None
    case Guard(c) =>
      if s.At(c).InstallGuard? then Some(s.Goto(c, ResetTransport)) else None
    case Transport(c, ok) =>
      if s.At(c).ResetTransport? then Some(s.Goto(c, if ok then BoxRoot else RunGuard)) else None
    case Root(c, l) =>
      if !s.At(c).BoxRoot? || !l.Valid() then None
      else if s.Fits(l) then s.Goto(c, Running(s.nextBox)).NewBox(Frame(c), l)
      else Some(s.Goto(c, RunGuard))
    case Box(c, parent, l) =>
      if !s.At(c).Running? || parent !in Tree(s.owner, s.At(c).root) || !l.Valid() then None
      else if s.Fits(l) then s.NewBox(Inside(parent), l)
      // The panic unwinds the whole call
      else Some(s.Goto(c, DropRoot(s.At(c).root)))
    case Use(c, op) =>
      if s.At(c).Running? && (op.Construct? || op.Write? || op.Read?) && op.id in Tree(s.owner, s.At(c).root) then
        s.Perform(op)
      else None
    case DropBox(c, id) =>
      if s.At(c).Running? && id != s.At(c).root && id in Tree(s.owner, s.At(c).root) then s.DropTree(id) else None
    case Leave(c) =>
      // A return, an error, a panic, or the future of this call being dropped where it waits
      (match s.At(c)
       case AwaitRunLock => Some(s.Goto(c, Done))
       case AwaitNetworks => Some(s.Goto(c, ReleaseRunLock))
       case InstallGuard => Some(s.Goto(c, s.NextRelease()))
       case ResetTransport => Some(s.Goto(c, RunGuard))
       case BoxRoot => Some(s.Goto(c, RunGuard))
       case Running(root) => Some(s.Goto(c, DropRoot(root)))
       case _ => None)
    case Unwind(c) =>
      (match s.At(c)
       case DropRoot(root) => s.Goto(c, RunGuard).DropTree(root)
       case RunGuard =>
         // Unconditional: nothing here checks that no box is left
         var h := HeapStep(s.heap, Reset);
         Some(s.(heap := if h.Some? then h.value else s.heap,
                 machine := MachineStep(s.machine, Reset).value,
                 ops := s.ops + [Reset]).Goto(c, s.NextRelease()))
       case ReleaseNetworks => Some(s.(networks := None).Goto(c, ReleaseRunLock))
       case ReleaseRunLock => Some(s.(runLock := None).Goto(c, Done))
       case _ => None)
  }

  /** A new stack, with its arena at any address. */
  function NewStack(wireless: bool, base: nat, garbage: seq<Byte>): Stack {
    Stack(wireless, None, None, map[], map[], 0, NewMachine(base, garbage), EMPTY_HEAP, [])
  }

  // ---------------------------------------------------------------------------------------
  // Invariants

  ghost predicate Locked(s: Stack) {
    && (forall c: CallerId :: s.At(c).HoldsRunLock() <==> s.runLock == Some(c))
    && (forall c: CallerId :: s.wireless && s.At(c).HoldsNetworks() <==> s.networks == Some(c))
    && (forall c: CallerId :: (s.At(c).AwaitNetworks? || s.At(c).ReleaseNetworks?) ==> s.wireless)
  }

  /** Every box is owned by an older live box or is the root box of a call that still has it. */
  ghost predicate OwnerTree(owner: map<BoxId, Owner>, nextBox: BoxId, pcs: map<CallerId, Pc>) {
    && (forall id :: id in owner ==> id < nextBox)
    && (forall id :: id in owner && owner[id].Inside? ==> owner[id].parent in owner && owner[id].parent < id)
    && (forall id :: id in owner && owner[id].Frame? ==>
          PcIn(pcs, owner[id].caller).HasRoot() && PcIn(pcs, owner[id].caller).root == id)
    && (forall c: CallerId :: PcIn(pcs, c).HasRoot() ==>
          PcIn(pcs, c).root in owner && owner[PcIn(pcs, c).root] == Frame(c))
  }

  ghost predicate Owned(s: Stack) {
    s.owner.Keys == s.heap.cells.Keys && OwnerTree(s.owner, s.nextBox, s.pcs)
  }

  /** The operations so far are a run of the plain heap, and the arena does as it does. */
  ghost predicate Coupled(s: Stack) {
    Exec(HeapStep, EMPTY_HEAP, s.ops) == Some(s.heap) && Refines(s.machine, s.heap)
  }

  /** Outside the stretch from boxing the root to running the guard, the arena is empty. */
  ghost predicate CleanBetweenRuns(s: Stack) {
    (forall c: CallerId :: !s.At(c).HasRoot() && !s.At(c).RunGuard?) ==>
      s.machine.store.offset == 0 && SinceReset(s.ops) == []
  }

  ghost predicate Inv(s: Stack) {
    Locked(s) && Owned(s) && Coupled(s) && CleanBetweenRuns(s)
  }

  lemma {:induction false} EveryBoxIsUnderTheRoot(s: Stack, c: CallerId, id: BoxId)
    requires Locked(s) && Owned(s)
    requires s.At(c).HasRoot() && id in s.owner
    ensures Under(s.owner, id, s.At(c).root)
    decreases id
  {
    if s.owner[id].Inside? {
      EveryBoxIsUnderTheRoot(s, c, s.owner[id].parent);
    } else {
      assert s.runLock == Some(c) && s.runLock == Some(s.owner[id].caller);
    }
  }

  /** A live box means that the holder of the run lock still has its root box. */
  lemma {:induction false} LiveBoxHasLiveRoot(s: Stack, id: BoxId) returns (c: CallerId)
    requires Owned(s) && id in s.owner
    ensures s.At(c).HasRoot()
    decreases id
  {
    if s.owner[id].Inside? {
      c := LiveBoxHasLiveRoot(s, s.owner[id].parent);
    } else {
      c := s.owner[id].caller;
    }
  }

  lemma AtMostOneRoot(s: Stack, c: CallerId, d: CallerId)
    requires Locked(s) && s.At(c).HoldsRunLock() && s.At(d).HoldsRunLock()
    ensures c == d
  {
    assert s.runLock == Some(c) && s.runLock == Some(d);
  }

  /** The heart of the matter: when the guard runs, nothing is left. */
  lemma NothingLiveAtGuard(s: Stack, c: CallerId)
    requires Inv(s) && s.At(c).RunGuard?
    ensures s.heap.cells == map[]
    ensures s.runLock == Some(c)
  {
    if s.heap.cells != map[] {
      var id :| id in s.heap.cells;
      var d := LiveBoxHasLiveRoot(s, id);
      AtMostOneRoot(s, c, d);
    }
  }

  lemma Appended(s: Stack, op: Op)
    requires Coupled(s)
    ensures Exec(HeapStep, EMPTY_HEAP, s.ops + [op]) == HeapStep(s.heap, op)
  {
    assert (s.ops + [op])[..|s.ops|] == s.ops;
  }

  lemma RootTreeIsEverything(s: Stack, c: CallerId)
    requires Locked(s) && Owned(s) && s.At(c).HasRoot()
    ensures Tree(s.owner, s.At(c).root) == s.owner.Keys
  {
    forall id | id in s.owner ensures Under(s.owner, id, s.At(c).root) {
      EveryBoxIsUnderTheRoot(s, c, id);
    }
  }

  lemma OthersStay(s: Stack, e: Event, c: CallerId)
    requires Step(s, e).Some? && c != e.c
    ensures Step(s, e).value.At(c) == s.At(c)
  {
  }

  lemma StepKeepsLocked(s: Stack, e: Event)
    requires Locked(s) && Step(s, e).Some?
    ensures Locked(Step(s, e).value)
  {
    var s' := Step(s, e).value;
    forall c: CallerId
      ensures s'.At(c).HoldsRunLock() <==> s'.runLock == Some(c)
      ensures s'.wireless && s'.At(c).HoldsNetworks() <==> s'.networks == Some(c)
      ensures (s'.At(c).AwaitNetworks? || s'.At(c).ReleaseNetworks?) ==> s'.wireless
    {
      assert s.At(e.c).HoldsRunLock() <==> s.runLock == Some(e.c);
      assert s.At(c).HoldsRunLock() <==> s.runLock == Some(c);
      if c != e.c {
        OthersStay(s, e, c);
      }
    }
  }

  lemma ChangesWithinRun(s: Stack, e: Event)
    requires Step(s, e).Some?
    ensures var s' := Step(s, e).value;
            || (s'.machine == s.machine && s'.ops == s.ops)
            || s'.At(e.c).HasRoot() || s'.At(e.c).RunGuard?
            || (s'.machine.store.offset == 0 && SinceReset(s'.ops) == [])
  {
  }

  lemma StepKeepsClean(s: Stack, e: Event)
    requires CleanBetweenRuns(s) && Step(s, e).Some?
    ensures CleanBetweenRuns(Step(s, e).value)
  {
    var s' := Step(s, e).value;
    ChangesWithinRun(s, e);
    if (forall c: CallerId :: !s'.At(c).HasRoot() && !s'.At(c).RunGuard?)
       && !(s'.machine.store.offset == 0 && SinceReset(s'.ops) == []) {
      forall c: CallerId ensures !s.At(c).HasRoot() && !s.At(c).RunGuard? {
        assert !s'.At(c).HasRoot() && !s'.At(c).RunGuard?;
        if c != e.c {
          OthersStay(s, e, c);
        }
      }
    }
  }

  /** Except at the guard, a step performs at most one operation, one the plain heap allows. */
  lemma OpsOfStep(s: Stack, e: Event)
    requires Step(s, e).Some? && !(e.Unwind? && s.At(e.c).RunGuard?)
    ensures var s' := Step(s, e).value;
            || (s'.ops == s.ops && s'.heap == s.heap && s'.machine == s.machine)
            || (var op := s'.ops[|s'.ops| - 1];
                && s'.ops == s.ops + [op]
                && HeapStep(s.heap, op) == Some(s'.heap) && MachineStep(s.machine, op) == Some(s'.machine))
  {
  }

  lemma GuardKeepsCoupled(s: Stack, c: CallerId)
    requires Inv(s) && s.At(c).RunGuard?
    ensures Step(s, Unwind(c)).Some? && Coupled(Step(s, Unwind(c)).value)
  {
    NothingLiveAtGuard(s, c);
    hide Locked, Owned, CleanBetweenRuns;
    Appended(s, Reset);
    StepRefines(s.machine, s.heap, Reset);
  }

  lemma StepKeepsCoupled(s: Stack, e: Event)
    requires Inv(s) && Step(s, e).Some?
    ensures Coupled(Step(s, e).value)
  {
    hide Step, HeapStep, MachineStep;
    if e.Unwind? && s.At(e.c).RunGuard? {
      GuardKeepsCoupled(s, e.c);
    } else {
      OpsOfStep(s, e);
      var s' := Step(s, e).value;
      if s'.ops != s.ops {
        var op := s'.ops[|s'.ops| - 1];
        Appended(s, op);
        StepRefines(s.machine, s.heap, op);
      }
    }
  }

  /** A box does not fit. */
  predicate Panics(s: Stack, e: Event) {
    (e.Root? || e.Box?) && !s.Fits(e.layout)
  }

  /** How a step changes the boxes and the callers: all that the owner tree depends on. */
  ghost predicate BoxMove(s: Stack, e: Event, s': Stack) {
    && s'.owner.Keys == s'.heap.cells.Keys
    && (match e
        case Root(c, _) =>
          if Panics(s, e) then SameBoxes(s, e, s') else
            && s.At(c).BoxRoot? && s'.pcs == s.pcs[c := Running(s.nextBox)]
            && s'.owner == s.owner[s.nextBox := Frame(c)] && s'.nextBox == s.nextBox + 1
        case Box(_, parent, _) =>
          if Panics(s, e) then SameBoxes(s, e, s') else
            && parent in s.owner && s'.pcs == s.pcs
            && s'.owner == s.owner[s.nextBox := Inside(parent)] && s'.nextBox == s.nextBox + 1
        case DropBox(c, id) =>
          && s.At(c).Running? && id != s.At(c).root && s'.pcs == s.pcs
          && s'.owner == s.owner - Tree(s.owner, id) && s'.nextBox == s.nextBox
        case Unwind(c) =>
          if s.At(c).DropRoot? then
            && s'.pcs == s.pcs[c := RunGuard] && s'.owner == s.owner - Tree(s.owner, s.At(c).root)
            && s'.nextBox == s.nextBox
          else
            SameBoxes(s, e, s')
        case Use(_, _) => s'.pcs == s.pcs && s'.owner == s.owner && s'.nextBox == s.nextBox
        case _ => SameBoxes(s, e, s'))
  }

  /** Only the caller itself moves on, with its root box if it has one. */
  ghost predicate SameBoxes(s: Stack, e: Event, s': Stack) {
    && s'.pcs == s.pcs[e.c := PcIn(s'.pcs, e.c)] && s'.owner == s.owner && s'.nextBox == s.nextBox
    && (s'.At(e.c).HasRoot() <==> s.At(e.c).HasRoot())
    && (s'.At(e.c).HasRoot() ==> s'.At(e.c).root == s.At(e.c).root)
  }

  lemma NewBoxMoves(s: Stack, e: Event)
    requires s.owner.Keys == s.heap.cells.Keys && Step(s, e).Some?
    requires e.Root? || e.Box?
    ensures BoxMove(s, e, Step(s, e).value)
  {
  }

  lemma DropMoves(s: Stack, e: Event)
    requires s.owner.Keys == s.heap.cells.Keys && Step(s, e).Some?
    requires e.DropBox? || e.Unwind?
    ensures BoxMove(s, e, Step(s, e).value)
  {
  }

  lemma OtherMoves(s: Stack, e: Event)
    requires s.owner.Keys == s.heap.cells.Keys && Step(s, e).Some?
    requires !e.Root? && !e.Box? && !e.DropBox? && !e.Unwind?
    ensures BoxMove(s, e, Step(s, e).value)
  {
  }

  lemma StepMovesBoxes(s: Stack, e: Event)
    requires s.owner.Keys == s.heap.cells.Keys && Step(s, e).Some?
    ensures BoxMove(s, e, Step(s, e).value)
  {
    if e.Root? || e.Box? {
      NewBoxMoves(s, e);
    } else if e.DropBox? || e.Unwind? {
      DropMoves(s, e);
    } else {
      OtherMoves(s, e);
    }
  }

  lemma RootKeepsOwned(s: Stack, c: CallerId, nextBox: BoxId)
    requires Locked(s) && Owned(s) && s.At(c).BoxRoot?
    ensures OwnerTree(s.owner[nextBox := Frame(c)], nextBox + 1, s.pcs[c := Running(nextBox)])
  {
    forall id | id in s.owner ensures false {
      var d := LiveBoxHasLiveRoot(s, id);
      AtMostOneRoot(s, c, d);
    }
    var pcs' := s.pcs[c := Running(nextBox)];
    forall d: CallerId ensures PcIn(pcs', d).HasRoot() ==> d == c {
      if d != c && s.At(d).HasRoot() {
        AtMostOneRoot(s, c, d);
      }
    }
  }

  lemma DropRootKeepsOwned(s: Stack, c: CallerId)
    requires Locked(s) && Owned(s) && s.At(c).DropRoot?
    ensures OwnerTree(s.owner - Tree(s.owner, s.At(c).root), s.nextBox, s.pcs[c := RunGuard])
  {
    RootTreeIsEverything(s, c);
    var pcs' := s.pcs[c := RunGuard];
    forall d: CallerId ensures !PcIn(pcs', d).HasRoot() {
      if d != c && s.At(d).HasRoot() {
        AtMostOneRoot(s, c, d);
      }
    }
  }

  lemma DropBoxKeepsOwned(s: Stack, c: CallerId, id: BoxId)
    requires Locked(s) && Owned(s) && s.At(c).Running? && id != s.At(c).root
    ensures OwnerTree(s.owner - Tree(s.owner, id), s.nextBox, s.pcs)
  {
    var gone := Tree(s.owner, id);
    var left := s.owner - gone;
    forall x | x in left && left[x].Inside? ensures left[x].parent in left {
      if s.owner[x].parent in gone {
        assert Under(s.owner, x, id);
      }
    }
    assert PcIn(s.pcs, c).HasRoot();
    assert !Under(s.owner, s.At(c).root, id);
    forall d: CallerId | PcIn(s.pcs, d).HasRoot() ensures PcIn(s.pcs, d).root in left {
      assert s.At(d).HoldsRunLock();
      AtMostOneRoot(s, c, d);
    }
  }

  lemma MoveKeepsOwned(owner: map<BoxId, Owner>, nextBox: BoxId, pcs: map<CallerId, Pc>, c: CallerId, pc: Pc)
    requires OwnerTree(owner, nextBox, pcs)
    requires pc.HasRoot() <==> PcIn(pcs, c).HasRoot()
    requires pc.HasRoot() ==> pc.root == PcIn(pcs, c).root
    ensures OwnerTree(owner, nextBox, pcs[c := pc])
  {
    var pcs' := pcs[c := pc];
    assert forall d: CallerId :: PcIn(pcs', d).HasRoot() == PcIn(pcs, d).HasRoot();
    assert forall d: CallerId :: PcIn(pcs, d).HasRoot() ==> PcIn(pcs', d).root == PcIn(pcs, d).root;
  }

  lemma BoxMoveKeepsOwned(s: Stack, e: Event, s': Stack)
    requires Locked(s) && Owned(s) && BoxMove(s, e, s')
    ensures Owned(s')
  {
    if Panics(s, e) {
      MoveKeepsOwned(s.owner, s.nextBox, s.pcs, e.c, s'.At(e.c));
    } else {
      match e
      case Root(c, _) => RootKeepsOwned(s, c, s.nextBox);
      case Box(_, _, _) =>
      case Use(_, _) =>
      case DropBox(c, id) => DropBoxKeepsOwned(s, c, id);
      case Unwind(c) =>
        if s.At(c).DropRoot? {
          DropRootKeepsOwned(s, c);
        } else {
          MoveKeepsOwned(s.owner, s.nextBox, s.pcs, c, s'.At(c));
        }
      case _ => MoveKeepsOwned(s.owner, s.nextBox, s.pcs, e.c, s'.At(e.c));
    }
  }

  lemma StepKeepsInv(s: Stack, e: Event)
    requires Inv(s) && Step(s, e).Some?
    ensures Inv(Step(s, e).value)
  {
    StepKeepsLocked(s, e);
    StepMovesBoxes(s, e);
    BoxMoveKeepsOwned(s, e, Step(s, e).value);
    StepKeepsCoupled(s, e);
    StepKeepsClean(s, e);
  }

  lemma {:induction false} InvHolds(wireless: bool, base: nat, garbage: seq<Byte>, es: seq<Event>)
    requires Exec(Step, NewStack(wireless, base, garbage), es).Some?
    ensures Inv(Exec(Step, NewStack(wireless, base, garbage), es).value)
  {
    var s := NewStack(wireless, base, garbage);
    if es == [] {
      assert Exec(HeapStep, EMPTY_HEAP, s.ops) == Some(EMPTY_HEAP);
    } else {
      var front := es[..|es| - 1];
      InvHolds(wireless, base, garbage, front);
      StepKeepsInv(Exec(Step, s, front).value, es[|es| - 1]);
    }
  }

  // ---------------------------------------------------------------------------------------
  // Main results

  /** Whatever the callers do and however they are left, the arena is reset only while no box is
      live and while the call that resets it still holds the run lock. */
  lemma ResetOnlyWhenNothingIsLive(wireless: bool, base: nat, garbage: seq<Byte>, es: seq<Event>, c: CallerId)
    requires Exec(Step, NewStack(wireless, base, garbage), es + [Unwind(c)]).Some?
    requires Exec(Step, NewStack(wireless, base, garbage), es).value.At(c).RunGuard?
    ensures var s := Exec(Step, NewStack(wireless, base, garbage), es).value;
            var s' := Exec(Step, NewStack(wireless, base, garbage), es + [Unwind(c)]).value;
            && s.heap.cells == map[] && s.machine.slots == map[]
            && s.runLock == Some(c) && s'.runLock == Some(c)
            && s'.ops == s.ops + [Reset] && s'.machine == s.machine.(store := s.machine.store.(offset := 0))
  {
    hide Step;
    assert (es + [Unwind(c)])[..|es|] == es;
    InvHolds(wireless, base, garbage, es);
    GuardResetsNothingLive(Exec(Step, NewStack(wireless, base, garbage), es).value, c);
  }

  lemma GuardResetsNothingLive(s: Stack, c: CallerId)
    requires Inv(s) && s.At(c).RunGuard? && Step(s, Unwind(c)).Some?
    ensures s.heap.cells == map[] && s.machine.slots == map[]
    ensures var s' := Step(s, Unwind(c)).value;
            && s.runLock == Some(c) && s'.runLock == Some(c)
            && s'.ops == s.ops + [Reset] && s'.machine == s.machine.(store := s.machine.store.(offset := 0))
  {
    NothingLiveAtGuard(s, c);
  }

  /** Hence the arena behaves as a plain heap over all runs of all callers: every live box holds
      what the plain heap holds, and every read through every box, in every run, returned what was
      last written there. */
  lemma HeapSurvivesAllRuns(wireless: bool, base: nat, garbage: seq<Byte>, es: seq<Event>)
    requires Exec(Step, NewStack(wireless, base, garbage), es).Some?
    ensures var s := Exec(Step, NewStack(wireless, base, garbage), es).value;
            && Exec(HeapStep, EMPTY_HEAP, s.ops) == Some(s.heap)
            && Refines(s.machine, s.heap) && s.machine.seen == s.heap.seen
  {
    InvHolds(wireless, base, garbage, es);
  }

  /** And it never stops a call that keeps to its own boxes, but for a box that does not fit:
      constructing, writing and reading go through wherever the plain heap allows them, and boxing
      goes through or, exactly if there is no room for it, unwinds the call. */
  lemma OnlyFullArenaUnwinds(wireless: bool, base: nat, garbage: seq<Byte>, es: seq<Event>, e: Event)
    requires Exec(Step, NewStack(wireless, base, garbage), es).Some?
    requires e.Root? || e.Box? || e.Use?
    ensures var s := Exec(Step, NewStack(wireless, base, garbage), es).value;
            && s.machine.store.Valid()
            && (e.Use? && s.At(e.c).Running? && (e.op.Construct? || e.op.Write? || e.op.Read?)
                && e.op.id in Tree(s.owner, s.At(e.c).root) ==>
                  (Step(s, e).Some? <==> HeapStep(s.heap, e.op).Some?))
            && (!e.Use? && Step(s, e).Some? ==>
                  && e.layout.Valid()
                  && (var s' := Step(s, e).value;
                      if Bump1(s.machine.store.base, |s.machine.store.mem|, s.machine.store.offset, e.layout).None? then
                        s' == s.Goto(e.c, if e.Root? then RunGuard else DropRoot(s.At(e.c).root))
                      else
                        s'.At(e.c).Running? && s'.ops == s.ops + [Reserve(s.nextBox, e.layout)]))
  {
    InvHolds(wireless, base, garbage, es);
    var s := Exec(Step, NewStack(wireless, base, garbage), es).value;
    if e.Use? {
      if HeapStep(s.heap, e.op).Some? {
        StepRefines(s.machine, s.heap, e.op);
      }
    } else if e.layout.Valid() {
      assert s.nextBox !in s.heap.cells;
      StepRefines(s.machine, s.heap, Reserve(s.nextBox, e.layout));
    }
  }

  /** The arena is the one that all operations so far lead to. */
  lemma {:induction false} OpsMakeTheArena(wireless: bool, base: nat, garbage: seq<Byte>, es: seq<Event>)
    requires Exec(Step, NewStack(wireless, base, garbage), es).Some?
    ensures var s := Exec(Step, NewStack(wireless, base, garbage), es).value;
            Exec(MachineStep, NewMachine(base, garbage), s.ops) == Some(s.machine)
  {
    if es != [] {
      hide Step, MachineStep;
      var front, e := es[..|es| - 1], es[|es| - 1];
      OpsMakeTheArena(wireless, base, garbage, front);
      var s := Exec(Step, NewStack(wireless, base, garbage), front).value;
      ArenaFollowsOps(s, e);
      var s' := Step(s, e).value;
      if s'.ops != s.ops {
        assert s'.ops[..|s'.ops| - 1] == s.ops;
      }
    }
  }

  lemma ArenaFollowsOps(s: Stack, e: Event)
    requires Step(s, e).Some?
    ensures var s' := Step(s, e).value;
            || (s'.ops == s.ops && s'.machine == s.machine)
            || (var op := s'.ops[|s'.ops| - 1];
                s'.ops == s.ops + [op] && MachineStep(s.machine, op) == Some(s'.machine))
  {
    if !(e.Unwind? && s.At(e.c).RunGuard?) {
      OpsOfStep(s, e);
    }
  }

  /** However the nested futures of a run are polled, whatever was dropped and boxed anew before, no
      call is unwound for want of room, if what has been boxed since the latest reset is among
      `boxes` and the arena is as large as these with their worst paddings. */
  lemma NoPollOrderUnwinds(wireless: bool, base: nat, garbage: seq<Byte>, es: seq<Event>, e: Event, boxes: seq<Layout>)
    requires Exec(Step, NewStack(wireless, base, garbage), es + [e]).Some? && (e.Root? || e.Box?)
    requires AllValid(boxes) && Budget(boxes) <= |garbage|
    requires Exec(Step, NewStack(wireless, base, garbage), es).Some?
    requires multiset(SinceReset(Exec(Step, NewStack(wireless, base, garbage), es).value.ops) + [e.layout])
             <= multiset(boxes)
    ensures Exec(Step, NewStack(wireless, base, garbage), es).value.Fits(e.layout)
    ensures Exec(Step, NewStack(wireless, base, garbage), es + [e]).value.At(e.c).Running?
  {
    hide Step, MachineStep;
    var s := Exec(Step, NewStack(wireless, base, garbage), es).value;
    assert (es + [e])[..|es|] == es;
    OpsMakeTheArena(wireless, base, garbage, es);
    OffsetIsBump(base, garbage, s.ops);
    NoPollOrderPanics(base, |garbage|, boxes, SinceReset(s.ops) + [e.layout]);
    BoxIsValid(s, e);
    BumpAllSnoc(base, |garbage|, 0, SinceReset(s.ops), e.layout);
    OnlyFullArenaUnwinds(wireless, base, garbage, es, e);
    InvHolds(wireless, base, garbage, es);
    RoomFits(s, e.layout);
  }

  lemma BoxIsValid(s: Stack, e: Event)
    requires (e.Root? || e.Box?) && Step(s, e).Some?
    ensures e.layout.Valid()
  {
  }

  lemma RoomFits(s: Stack, l: Layout)
    requires s.machine.store.Valid() && l.Valid()
    requires Bump1(s.machine.store.base, |s.machine.store.mem|, s.machine.store.offset, l).Some?
    ensures s.Fits(l)
  {
  }

  /** In particular for the boxes of an Ethernet run. */
  lemma EthRunNeverUnwinds(b: EthBoxes, handlers: nat, busyHandlers: nat,
                           base: nat, garbage: seq<Byte>, es: seq<Event>, e: Event)
    requires b.Valid() && b.Room(handlers, busyHandlers) <= |garbage|
    requires Exec(Step, NewStack(false, base, garbage), es + [e]).Some? && (e.Root? || e.Box?)
    requires Exec(Step, NewStack(false, base, garbage), es).Some?
    requires multiset(SinceReset(Exec(Step, NewStack(false, base, garbage), es).value.ops) + [e.layout])
             <= multiset(b.Requests(handlers, busyHandlers))
    ensures Exec(Step, NewStack(false, base, garbage), es + [e]).value.At(e.c).Running?
  {
    RoomIsBudget(b, handlers, busyHandlers);
    NoPollOrderUnwinds(false, base, garbage, es, e, b.Requests(handlers, busyHandlers));
  }

  /** A run that is about to box its root, and a stack nobody runs, have the whole arena: no
      earlier run, however it ended, keeps any of it. */
  lemma EveryRunStartsWithTheWholeArena(wireless: bool, base: nat, garbage: seq<Byte>, es: seq<Event>)
    requires Exec(Step, NewStack(wireless, base, garbage), es).Some?
    ensures var s := Exec(Step, NewStack(wireless, base, garbage), es).value;
            s.runLock.None? || (exists c: CallerId :: s.At(c).BoxRoot?) ==>
              s.machine.store.offset == 0 && s.machine.slots == map[] && s.heap.cells == map[]
  {
    InvHolds(wireless, base, garbage, es);
    var s := Exec(Step, NewStack(wireless, base, garbage), es).value;
    if s.runLock.None? || exists c: CallerId :: s.At(c).BoxRoot? {
      NoRootWhileIdle(s);
    }
  }

  lemma NoRootWhileIdle(s: Stack)
    requires Inv(s)
    requires s.runLock.None? || exists c: CallerId :: s.At(c).BoxRoot?
    ensures s.machine.store.offset == 0 && s.heap.cells == map[] && SinceReset(s.ops) == []
  {
    forall d: CallerId ensures !s.At(d).HasRoot() && !s.At(d).RunGuard? {
      if s.At(d).HoldsRunLock() {
        var c: CallerId :| s.At(c).BoxRoot?;
        AtMostOneRoot(s, c, d);
      }
    }
    if s.heap.cells != map[] {
      var id :| id in s.heap.cells;
      var d := LiveBoxHasLiveRoot(s, id);
    }
  }

  // ---------------------------------------------------------------------------------------
  // What can always be done

  /** Whoever is running can box a future inside any box that is live, and the new box is then
      live and owned by that one, if only there is room. */
  lemma BoxingGoesThrough(wireless: bool, base: nat, garbage: seq<Byte>, es: seq<Event>, c: CallerId, parent: BoxId, l: Layout)
    requires Exec(Step, NewStack(wireless, base, garbage), es).Some?
    requires var s := Exec(Step, NewStack(wireless, base, garbage), es).value;
             s.At(c).Running? && parent in s.heap.cells && l.Valid()
    ensures var s := Exec(Step, NewStack(wireless, base, garbage), es).value;
            var next := Step(s, Box(c, parent, l));
            && next.Some?
            && (s.Fits(l) ==> s.nextBox !in s.heap.cells && HasBox(s, next.value, s.nextBox, l, Inside(parent)))
  {
    hide Step;
    InvHolds(wireless, base, garbage, es);
    BoxStep(Exec(Step, NewStack(wireless, base, garbage), es).value, c, parent, l);
  }

  /** A box was added and nothing else changed for those there were. */
  ghost predicate HasBox(s: Stack, s': Stack, id: BoxId, l: Layout, o: Owner) {
    && s'.heap == s.heap.(cells := s.heap.cells[id := Cell(l, None)])
    && s'.owner == s.owner[id := o] && s'.nextBox == id + 1 && s'.pcs == s.pcs
    && s'.ops == s.ops + [Reserve(id, l)] && MachineStep(s.machine, Reserve(id, l)) == Some(s'.machine)
  }

  lemma BoxStep(s: Stack, c: CallerId, parent: BoxId, l: Layout)
    requires Inv(s) && s.At(c).Running? && parent in s.heap.cells && l.Valid()
    ensures Step(s, Box(c, parent, l)).Some? && s.nextBox !in s.heap.cells
    ensures s.Fits(l) ==> HasBox(s, Step(s, Box(c, parent, l)).value, s.nextBox, l, Inside(parent))
  {
    RootTreeIsEverything(s, c);
    BoxUnfolds(s, c, parent, l);
    hide Step, HasBox;
    if s.Fits(l) {
      NewBoxHas(s, Inside(parent), l);
    }
  }

  lemma BoxUnfolds(s: Stack, c: CallerId, parent: BoxId, l: Layout)
    requires s.At(c).Running? && parent in Tree(s.owner, s.At(c).root) && l.Valid()
    ensures Step(s, Box(c, parent, l)) == if s.Fits(l) then s.NewBox(Inside(parent), l)
                                          else Some(s.Goto(c, DropRoot(s.At(c).root)))
  {
  }

  lemma NewBoxHas(s: Stack, o: Owner, l: Layout)
    requires l.Valid() && s.nextBox !in s.heap.cells && s.Fits(l)
    ensures s.NewBox(o, l).Some? && HasBox(s, s.NewBox(o, l).value, s.nextBox, l, o)
  {
  }

  /** Any box but the root can be dropped, with all that it owns and nothing else. */
  lemma BoxesCanBeDropped(wireless: bool, base: nat, garbage: seq<Byte>, es: seq<Event>, c: CallerId, id: BoxId)
    requires Exec(Step, NewStack(wireless, base, garbage), es).Some?
    requires var s := Exec(Step, NewStack(wireless, base, garbage), es).value;
             s.At(c).Running? && id in s.heap.cells && id != s.At(c).root
    ensures var s := Exec(Step, NewStack(wireless, base, garbage), es).value;
            var next := Step(s, DropBox(c, id));
            && next.Some?
            && next.value.heap.cells.Keys == s.heap.cells.Keys - (set x | x in s.heap.cells && Under(s.owner, x, id))
  {
    hide Step;
    InvHolds(wireless, base, garbage, es);
    DropStep(Exec(Step, NewStack(wireless, base, garbage), es).value, c, id);
  }

  lemma DropStep(s: Stack, c: CallerId, id: BoxId)
    requires Inv(s) && s.At(c).Running? && id in s.heap.cells && id != s.At(c).root
    ensures Step(s, DropBox(c, id)).Some?
    ensures Step(s, DropBox(c, id)).value.heap.cells.Keys
            == s.heap.cells.Keys - (set x | x in s.heap.cells && Under(s.owner, x, id))
  {
    RootTreeIsEverything(s, c);
    DropUnfolds(s, c, id);
    DropTreeDrops(s, id);
  }

  lemma DropUnfolds(s: Stack, c: CallerId, id: BoxId)
    requires s.At(c).Running? && id in Tree(s.owner, s.At(c).root) && id != s.At(c).root
    ensures Step(s, DropBox(c, id)) == s.DropTree(id)
  {
  }

  lemma DropTreeDrops(s: Stack, id: BoxId)
    requires s.owner.Keys == s.heap.cells.Keys
    ensures s.DropTree(id).Some?
    ensures s.DropTree(id).value.heap.cells.Keys
            == s.heap.cells.Keys - (set x | x in s.heap.cells && Under(s.owner, x, id))
  {
  }

  /** A call boxes its root only if it has reset the transport, and without an error. */
  lemma {:induction false} RootNeedsTransport(wireless: bool, base: nat, garbage: seq<Byte>, es: seq<Event>, c: CallerId)
    requires Exec(Step, NewStack(wireless, base, garbage), es).Some?
    ensures var pc := Exec(Step, NewStack(wireless, base, garbage), es).value.At(c);
            && (pc.HasRoot() || pc.BoxRoot? ==> Transport(c, true) in es)
            && (Transport(c, false) in es ==> pc.RunGuard? || pc.ReleaseNetworks? || pc.ReleaseRunLock? || pc.Done?)
  {
    if es != [] {
      hide Step;
      var front, e := es[..|es| - 1], es[|es| - 1];
      assert es == front + [e];
      RootNeedsTransport(wireless, base, garbage, front, c);
      var s := Exec(Step, NewStack(wireless, base, garbage), front).value;
      if e.c == c {
        PcMoves(s, e);
      } else {
        OthersStay(s, e, c);
      }
    }
  }

  lemma PcMoves(s: Stack, e: Event)
    requires Step(s, e).Some?
    ensures var pc, pc' := s.At(e.c), Step(s, e).value.At(e.c);
            && (pc'.HasRoot() || pc'.BoxRoot? ==> pc.HasRoot() || pc.BoxRoot? || e == Transport(e.c, true))
            && (e == Transport(e.c, false) ==> pc'.RunGuard?)
            && (pc.RunGuard? || pc.ReleaseNetworks? || pc.ReleaseRunLock? || pc.Done? ==>
                  pc'.ReleaseNetworks? || pc'.ReleaseRunLock? || pc'.Done?)
  {
  }

  /** How far a call is from its end. */
  function ToEnd(pc: Pc): nat {
    match pc
    case Running(_) => 5
    case DropRoot(_) => 4
    case InstallGuard => 3
    case ResetTransport => 4
    case BoxRoot => 4
    case RunGuard => 3
    case ReleaseNetworks => 2
    case AwaitNetworks => 2
    case ReleaseRunLock => 1
    case AwaitRunLock => 1
    case NotCalled => 0
    case Done => 0
  }

  lemma EndStep(s: Stack, c: CallerId) returns (e: Event)
    requires s.owner.Keys == s.heap.cells.Keys && ToEnd(s.At(c)) > 0
    ensures e in {Leave(c), Unwind(c)} && Step(s, e).Some?
    ensures var s' := Step(s, e).value;
            && ToEnd(s'.At(c)) < ToEnd(s.At(c)) && !s'.At(c).NotCalled?
            && (s.At(c).HoldsRunLock() && !s'.At(c).HoldsRunLock() ==> s'.At(c).Done? && s'.runLock.None?)
  {
    if s.At(c).DropRoot? {
      DropTreeDrops(s.Goto(c, RunGuard), s.At(c).root);
    }
    e := if s.At(c).DropRoot? || s.At(c).RunGuard? || s.At(c).ReleaseNetworks? || s.At(c).ReleaseRunLock?
    then Unwind(c) else Leave(c);
  }

  /** From wherever it stands a call can be left and unwound to its end, with nobody's help. If it
      held the run lock, the lock is free then and the arena is whole. */
  lemma {:induction false} EveryCallCanEnd(s: Stack, c: CallerId) returns (es: seq<Event>)
    requires Inv(s) && !s.At(c).NotCalled?
    ensures forall i :: 0 <= i < |es| ==> es[i] in {Leave(c), Unwind(c)}
    ensures var next := Exec(Step, s, es);
            && next.Some? && Inv(next.value) && next.value.At(c).Done?
            && (s.At(c).Done? ==> es == [])
            && (s.At(c).HoldsRunLock() ==>
                  && next.value.runLock.None?
                  && next.value.heap.cells == map[] && next.value.machine.store.offset == 0)
    decreases ToEnd(s.At(c))
  {
    hide Step;
    if s.At(c).Done? {
      return [];
    }
    var e := EndStep(s, c);
    StepKeepsInv(s, e);
    var s' := Step(s, e).value;
    var rest := EveryCallCanEnd(s', c);
    es := [e] + rest;
    FirstStep(Step, s, es);
    assert es[1..] == rest;
    if s.At(c).HoldsRunLock() {
      NoRootWhileIdle(Exec(Step, s, es).value);
    }
  }

  lemma NetworksFree(s: Stack)
    requires Locked(s) && s.runLock.None?
    ensures s.networks.None?
  {
    forall d: CallerId ensures s.networks != Some(d) {
      assert s.At(d).HoldsRunLock() <==> s.runLock == Some(d);
    }
  }

  /** A call that waits for a run lock that is free gets to boxing its root. */
  lemma CallsCanBegin(s: Stack, c: CallerId)
    requires Inv(s) && s.At(c).AwaitRunLock? && s.runLock.None?
    ensures var es := [LockRun(c)] + (if s.wireless then [LockNetworks(c)] else []) + [Guard(c), Transport(c, true)];
            Exec(Step, s, es).Some? && OnlyAt(s, Exec(Step, s, es).value, c, BoxRoot)
  {
    NetworksFree(s);
    hide Inv, Step, OnlyAt;
    Locks(s, c);
    var locks := [LockRun(c)] + if s.wireless then [LockNetworks(c)] else [];
    var locked := Exec(Step, s, locks).value;
    Prepares(s, locked, c);
    Join(Step, s, locks, [Guard(c), Transport(c, true)]);
  }

  /** Caller `c`, which has the run lock now, has moved on; the boxes are what they were. */
  ghost predicate OnlyAt(s: Stack, s': Stack, c: CallerId, pc: Pc) {
    && s'.At(c) == pc && s'.runLock == Some(c) && s'.wireless == s.wireless
    && s'.machine == s.machine && s'.heap == s.heap && s'.ops == s.ops
    && s'.owner == s.owner && s'.nextBox == s.nextBox
  }

  lemma Locks(s: Stack, c: CallerId)
    requires s.At(c).AwaitRunLock? && s.runLock.None? && s.networks.None?
    ensures var r := Exec(Step, s, [LockRun(c)] + if s.wireless then [LockNetworks(c)] else []);
            r.Some? && OnlyAt(s, r.value, c, InstallGuard)
  {
    var s1 := Step(s, LockRun(c)).value;
    if s.wireless {
      TrailRuns(Step, [s, s1, Step(s1, LockNetworks(c)).value], [LockRun(c), LockNetworks(c)]);
      assert [LockRun(c)] + [LockNetworks(c)] == [LockRun(c), LockNetworks(c)];
    } else {
      TrailRuns(Step, [s, s1], [LockRun(c)]);
      assert [LockRun(c)] + [] == [LockRun(c)];
    }
  }

  lemma Prepares(s: Stack, locked: Stack, c: CallerId)
    requires OnlyAt(s, locked, c, InstallGuard)
    ensures var r := Exec(Step, locked, [Guard(c), Transport(c, true)]);
            r.Some? && OnlyAt(s, r.value, c, BoxRoot)
  {
    var s1 := Step(locked, Guard(c)).value;
    TrailRuns(Step, [locked, s1, Step(s1, Transport(c, true)).value], [Guard(c), Transport(c, true)]);
  }

  // ---------------------------------------------------------------------------------------
  // The boxes of a whole Ethernet run

  /** All boxes from number `first` on are live. */
  ghost predicate AllLive(s: Stack, first: BoxId) {
    forall id: BoxId :: first <= id < s.nextBox ==> id in s.heap.cells
  }

  function Boxings(c: CallerId, parents: seq<BoxId>, ls: seq<Layout>): seq<Event>
    requires |parents| == |ls|
  {
    seq(|ls|, i requires 0 <= i < |ls| => Box(c, parents[i], ls[i]))
  }

  /** `ls` were boxed one after the other, each inside the parent named for it. */
  ghost predicate Boxed(s: Stack, s': Stack, parents: seq<BoxId>, ls: seq<Layout>)
    requires |parents| == |ls|
  {
    && s'.pcs == s.pcs && s'.nextBox == s.nextBox + |ls|
    && SinceReset(s'.ops) == SinceReset(s.ops) + ls
    && (forall id: BoxId :: id in s.owner ==> id in s'.owner && s'.owner[id] == s.owner[id])
    && (forall id: BoxId :: id in s'.owner ==> id in s.owner || s.nextBox <= id < s'.nextBox)
    && (forall id: BoxId :: s.nextBox <= id < s.nextBox + |ls| ==>
          id in s'.owner && s'.owner[id] == Inside(parents[id - s.nextBox]))
  }

  lemma BoxedOne(s: Stack, s1: Stack, s2: Stack, first: BoxId, parents: seq<BoxId>, ls: seq<Layout>, parent: BoxId, l: Layout)
    requires |parents| == |ls| && Boxed(s, s1, parents, ls) && AllLive(s1, first)
    requires s1.nextBox !in s1.owner && HasBox(s1, s2, s1.nextBox, l, Inside(parent))
    ensures Boxed(s, s2, parents + [parent], ls + [l]) && AllLive(s2, first)
    ensures SinceReset(s2.ops) == SinceReset(s1.ops) + [l]
  {
    assert s2.ops[..|s2.ops| - 1] == s1.ops;
    assert SinceReset(s2.ops) == SinceReset(s1.ops) + [l] == SinceReset(s.ops) + (ls + [l]);
  }

  /** A run in which what was boxed so far, and then `ls`, fits the arena. */
  ghost predicate RoomFor(s: Stack, c: CallerId, first: BoxId, ls: seq<Layout>, base: nat, cap: nat) {
    && Inv(s) && s.At(c).Running? && AllLive(s, first)
    && Reserved(s.machine.store, base, cap, SinceReset(s.ops))
    && AllValid(SinceReset(s.ops) + ls) && BumpAll(base, cap, 0, SinceReset(s.ops) + ls).Some?
  }

  lemma BoxOne(s: Stack, c: CallerId, first: BoxId, parent: BoxId, l: Layout, base: nat, cap: nat)
    requires RoomFor(s, c, first, [l], base, cap) && parent in s.heap.cells
    ensures s.nextBox !in s.owner && Step(s, Box(c, parent, l)).Some?
    ensures var s' := Step(s, Box(c, parent, l)).value;
            && HasBox(s, s', s.nextBox, l, Inside(parent)) && Inv(s')
            && Reserved(s'.machine.store, base, cap, SinceReset(s.ops) + [l])
  {
    hide Step, MachineStep;
    var before := SinceReset(s.ops);
    assert l == (before + [l])[|before|];
    BumpAllSnoc(base, cap, 0, before, l);
    RoomFits(s, l);
    BoxStep(s, c, parent, l);
    StepKeepsInv(s, Box(c, parent, l));
    StepKeepsReserved(s.machine, Reserve(s.nextBox, l), base, cap, before);
  }

  lemma RoomForFront(s: Stack, c: CallerId, first: BoxId, ls: seq<Layout>, base: nat, cap: nat)
    requires ls != [] && RoomFor(s, c, first, ls, base, cap)
    ensures RoomFor(s, c, first, ls[..|ls| - 1], base, cap)
  {
    hide Inv;
    var before := SinceReset(s.ops);
    var front, l := before + ls[..|ls| - 1], ls[|ls| - 1];
    assert before + ls == front + [l] && l == (front + [l])[|front|];
    forall i | 0 <= i < |front| ensures front[i].Valid() {
      assert front[i] == (front + [l])[i];
    }
    BumpAllSnoc(base, cap, 0, front, l);
  }

  /** From all but the last of `ls` boxed to all of them. */
  lemma BoxLast(s: Stack, s1: Stack, c: CallerId, first: BoxId, parents: seq<BoxId>, ls: seq<Layout>, base: nat, cap: nat)
    requires |parents| == |ls| > 0 && first <= parents[|ls| - 1] < s.nextBox + |ls| - 1
    requires RoomFor(s, c, first, ls, base, cap) && RoomFor(s1, c, first, [], base, cap)
    requires Boxed(s, s1, parents[..|ls| - 1], ls[..|ls| - 1])
    ensures var next := Step(s1, Box(c, parents[|ls| - 1], ls[|ls| - 1]));
            next.Some? && Boxed(s, next.value, parents, ls) && RoomFor(next.value, c, first, [], base, cap)
  {
    hide Step, HasBox, Inv, MachineStep;
    var n := |ls| - 1;
    assert SinceReset(s.ops) + ls == SinceReset(s1.ops) + [ls[n]];
    BoxOne(s1, c, first, parents[n], ls[n], base, cap);
    var s2 := Step(s1, Box(c, parents[n], ls[n])).value;
    BoxedOne(s, s1, s2, first, parents[..n], ls[..n], parents[n], ls[n]);
    BoxKeepsRunning(s1, s2, c, parents[n], ls[n]);
    assert parents == parents[..n] + [parents[n]] && ls == ls[..n] + [ls[n]];
    assert SinceReset(s2.ops) + [] == SinceReset(s2.ops);
  }

  lemma BoxKeepsRunning(s: Stack, s': Stack, c: CallerId, parent: BoxId, l: Layout)
    requires HasBox(s, s', s.nextBox, l, Inside(parent))
    ensures s'.pcs == s.pcs
  {
  }

  lemma BoxedNone(s: Stack, parents: seq<BoxId>, ls: seq<Layout>)
    requires parents == [] && ls == []
    ensures Boxed(s, s, parents, ls)
  {
    assert SinceReset(s.ops) + ls == SinceReset(s.ops);
  }

  lemma {:induction false} BoxAll(s: Stack, c: CallerId, first: BoxId, parents: seq<BoxId>, ls: seq<Layout>, base: nat, cap: nat)
    requires RoomFor(s, c, first, ls, base, cap)
    requires |parents| == |ls| && forall i :: 0 <= i < |ls| ==> first <= parents[i] < s.nextBox + i
    ensures var r := Exec(Step, s, Boxings(c, parents, ls));
            && r.Some? && Boxed(s, r.value, parents, ls) && RoomFor(r.value, c, first, [], base, cap)
  {
    hide Step, RoomFor, Boxed;
    if ls == [] {
      BoxedNone(s, parents, ls);
    } else {
      var n := |ls| - 1;
      RoomForFront(s, c, first, ls, base, cap);
      BoxAll(s, c, first, parents[..n], ls[..n], base, cap);
      assert Boxings(c, parents, ls)[..n] == Boxings(c, parents[..n], ls[..n]);
      BoxLast(s, Exec(Step, s, Boxings(c, parents[..n], ls[..n])).value, c, first, parents, ls, base, cap);
    }
  }

  /** Which box of an Ethernet run each box but the root is inside, counted from the root: the four
      tasks in the root, the responder in the Interaction Model task, its two halves in it, and the
      handlers in these. */
  function EthParent(i: nat, handlers: nat): nat {
    if i <= 4 then 0 else if i == 5 then 3 else if i <= 7 then 5 else if i < 8 + handlers then 6 else 7
  }

  function EthParents(root: BoxId, handlers: nat, n: nat): seq<BoxId> {
    seq(n, i requires 0 <= i < n => root + EthParent(i + 1, handlers))
  }

  lemma RootBoxed(s: Stack, c: CallerId, l: Layout, base: nat, cap: nat)
    requires Inv(s) && s.At(c).BoxRoot? && l.Valid() && Reserved(s.machine.store, base, cap, [])
    requires SinceReset(s.ops) == [] && s.heap.cells == map[] && BumpAll(base, cap, 0, [l]).Some?
    ensures Step(s, Root(c, l)).Some?
    ensures var s' := Step(s, Root(c, l)).value;
            && s'.pcs == s.pcs[c := Running(s.nextBox)] && s'.nextBox == s.nextBox + 1
            && s'.owner == map[s.nextBox := Frame(c)] && AllLive(s', s.nextBox)
            && SinceReset(s'.ops) == [l] && Reserved(s'.machine.store, base, cap, [l])
  {
    assert BumpAll(base, cap, 0, [l]) == Bump1(base, cap, 0, l);
    RoomFits(s, l);
    var s1 := s.Goto(c, Running(s.nextBox));
    NewBoxHas(s1, Frame(c), l);
    hide MachineStep;
    StepKeepsReserved(s.machine, Reserve(s.nextBox, l), base, cap, []);
    assert (s.ops + [Reserve(s.nextBox, l)])[..|s.ops|] == s.ops;
    assert s.owner == map[];
    assert [] + [l] == [l];
  }

  /** A call of `run` as far as the boxing of its root. */
  function Beginning(c: CallerId, root: Layout): seq<Event> {
    Readying(c) + [Root(c, root)]
  }

  function Readying(c: CallerId): seq<Event> {
    [Call(c)] + ([LockRun(c)] + [] + [Guard(c), Transport(c, true)])
  }

  lemma Begins(s: Stack, c: CallerId, root: Layout, base: nat, cap: nat)
    requires Inv(s) && !s.wireless && s.runLock.None? && s.At(c).NotCalled?
    requires Reserved(s.machine.store, base, cap, SinceReset(s.ops))
    requires root.Valid() && BumpAll(base, cap, 0, [root]).Some?
    ensures var r := Exec(Step, s, Beginning(c, root));
            && r.Some? && Inv(r.value) && r.value.At(c) == Running(s.nextBox) && r.value.nextBox == s.nextBox + 1
            && r.value.owner == map[s.nextBox := Frame(c)] && AllLive(r.value, s.nextBox)
            && SinceReset(r.value.ops) == [root] && Reserved(r.value.machine.store, base, cap, [root])
  {
    var ready := GetsReady(s, c);
    hide Step, Inv, Reserved;
    RootBoxed(ready, c, root, base, cap);
    StepKeepsInv(ready, Root(c, root));
    var es := Beginning(c, root);
    assert es[..|es| - 1] == Readying(c);
  }

  lemma GetsReady(s: Stack, c: CallerId) returns (ready: Stack)
    requires Inv(s) && !s.wireless && s.runLock.None? && s.At(c).NotCalled?
    ensures Exec(Step, s, Readying(c)) == Some(ready) && Inv(ready) && ready.At(c).BoxRoot?
    ensures ready.machine == s.machine && ready.ops == s.ops && SinceReset(s.ops) == []
    ensures ready.nextBox == s.nextBox && ready.heap.cells == map[]
  {
    NoRootWhileIdle(s);
    var called := s.Goto(c, AwaitRunLock);
    assert Step(s, Call(c)) == Some(called);
    hide Step;
    StepKeepsInv(s, Call(c));
    hide Inv;
    CallsCanBegin(called, c);
    var go := [LockRun(c)] + [] + [Guard(c), Transport(c, true)];
    InvAlong(called, go);
    TrailRuns(Step, [s, called], [Call(c)]);
    Join(Step, s, [Call(c)], go);
    ready := Exec(Step, called, go).value;
  }

  lemma {:induction false} InvAlong(s: Stack, es: seq<Event>)
    requires Inv(s) && Exec(Step, s, es).Some?
    ensures Inv(Exec(Step, s, es).value)
  {
    if es != [] {
      InvAlong(s, es[..|es| - 1]);
      StepKeepsInv(Exec(Step, s, es[..|es| - 1]).value, es[|es| - 1]);
    }
  }

  /** An Ethernet run as the source makes it, with all its futures polled: in an arena with room for
      them nothing stops it, whoever ran before it and whatever became of that. Its boxes are those
      of the source, each in the future that the source boxes it in. */
  lemma EthRunBoxesItsTree(b: EthBoxes, handlers: nat, busyHandlers: nat,
                           base: nat, garbage: seq<Byte>, es: seq<Event>, c: CallerId)
    returns (run: seq<Event>)
    requires b.Valid() && b.Room(handlers, busyHandlers) <= |garbage|
    requires Exec(Step, NewStack(false, base, garbage), es).Some?
    requires Exec(Step, NewStack(false, base, garbage), es).value.runLock.None?
    requires Exec(Step, NewStack(false, base, garbage), es).value.At(c).NotCalled?
    ensures Exec(Step, NewStack(false, base, garbage), es + run).Some?
    ensures var root := Exec(Step, NewStack(false, base, garbage), es).value.nextBox;
            HasEthTree(Exec(Step, NewStack(false, base, garbage), es + run).value, root,
                       b.Requests(handlers, busyHandlers), handlers, c)
  {
    hide Step, Inv, Reserved;
    var s0 := NewStack(false, base, garbage);
    var s := Exec(Step, s0, es).value;
    InvHolds(false, base, garbage, es);
    OpsMakeTheArena(false, base, garbage, es);
    OffsetIsBump(base, garbage, s.ops);
    StaysWired(s0, es);
    run := EthRunFrom(s, b, handlers, busyHandlers, base, |garbage|, c);
    Join(Step, s0, es, run);
  }

  lemma RootIsFirst(b: EthBoxes, handlers: nat, busyHandlers: nat)
    ensures var boxes := b.Requests(handlers, busyHandlers);
            boxes != [] && boxes[0] == b.root && [b.root] + boxes[1..] == boxes
  {
    var boxes := b.Requests(handlers, busyHandlers);
    assert boxes[0] == b.Singles()[0];
  }

  lemma HeadFits(base: nat, cap: nat, ls: seq<Layout>)
    requires ls != [] && AllValid(ls) && BumpAll(base, cap, 0, ls).Some?
    ensures AllValid([ls[0]]) && BumpAll(base, cap, 0, [ls[0]]).Some?
  {
    var next := Bump1(base, cap, 0, ls[0]).value;
    assert [ls[0]][1..] == [] && BumpAll(base, cap, next, []) == Some(next);
  }

  lemma EthFits(b: EthBoxes, handlers: nat, busyHandlers: nat, base: nat, cap: nat)
    requires b.Valid() && b.Room(handlers, busyHandlers) <= cap
    ensures var boxes := b.Requests(handlers, busyHandlers);
            AllValid(boxes) && BumpAll(base, cap, 0, boxes).Some?
  {
    RoomIsBudget(b, handlers, busyHandlers);
    hide EthBoxes.Requests, EthBoxes.Room, EthBoxes.Valid, BumpAll, Budget;
    NoPollOrderPanics(base, cap, b.Requests(handlers, busyHandlers), b.Requests(handlers, busyHandlers));
  }

  lemma ParentsAreOlder(root: BoxId, handlers: nat, n: nat)
    ensures |EthParents(root, handlers, n)| == n
    ensures forall i :: 0 <= i < n ==> root <= EthParents(root, handlers, n)[i] < root + 1 + i
  {
  }

  lemma HasRoomFor(s: Stack, c: CallerId, first: BoxId, ls: seq<Layout>, base: nat, cap: nat)
    requires Inv(s) && s.At(c).Running? && AllLive(s, first)
    requires Reserved(s.machine.store, base, cap, SinceReset(s.ops))
    requires AllValid(SinceReset(s.ops) + ls) && BumpAll(base, cap, 0, SinceReset(s.ops) + ls).Some?
    ensures RoomFor(s, c, first, ls, base, cap)
  {
  }

  lemma EthRest(ready: Stack, root: BoxId, boxes: seq<Layout>, handlers: nat, base: nat, cap: nat, c: CallerId)
    requires boxes != [] && AllValid(boxes) && BumpAll(base, cap, 0, boxes).Some?
    requires Inv(ready) && ready.At(c) == Running(root) && ready.nextBox == root + 1 && AllLive(ready, root)
    requires ready.owner == map[root := Frame(c)] && SinceReset(ready.ops) == [boxes[0]]
    requires Reserved(ready.machine.store, base, cap, [boxes[0]])
    ensures |EthParents(root, handlers, |boxes| - 1)| == |boxes| - 1
    ensures var r := Exec(Step, ready, Boxings(c, EthParents(root, handlers, |boxes| - 1), boxes[1..]));
            r.Some? && HasEthTree(r.value, root, boxes, handlers, c)
  {
    hide Exec, Step, Inv, Reserved, Boxed, HasEthTree, BumpAll, AllValid, RoomFor, AllLive, EthParents, Boxings;
    var ls, parents := boxes[1..], EthParents(root, handlers, |boxes| - 1);
    assert [boxes[0]] + ls == boxes;
    ParentsAreOlder(root, handlers, |ls|);
    HasRoomFor(ready, c, root, ls, base, cap);
    BoxAll(ready, c, root, parents, ls, base, cap);
    var s := Exec(Step, ready, Boxings(c, parents, ls)).value;
    OwnersAreLive(s, c, root, base, cap);
    EthTree(ready, s, root, boxes, handlers, c);
  }

  lemma EthRunFrom(s: Stack, b: EthBoxes, handlers: nat, busyHandlers: nat, base: nat, cap: nat, c: CallerId)
    returns (run: seq<Event>)
    requires b.Valid() && b.Room(handlers, busyHandlers) <= cap
    requires Inv(s) && !s.wireless && s.runLock.None? && s.At(c).NotCalled?
    requires Reserved(s.machine.store, base, cap, SinceReset(s.ops))
    ensures Exec(Step, s, run).Some?
    ensures HasEthTree(Exec(Step, s, run).value, s.nextBox, b.Requests(handlers, busyHandlers), handlers, c)
  {
    var boxes := b.Requests(handlers, busyHandlers);
    RootIsFirst(b, handlers, busyHandlers);
    hide Exec, Step, Inv, Reserved, HasEthTree, BumpAll, AllLive, EthParents, Beginning, Boxings,
         EthBoxes.Requests, EthBoxes.Room;
    EthFits(b, handlers, busyHandlers, base, cap);
    HeadFits(base, cap, boxes);
    Begins(s, c, b.root, base, cap);
    var ready := Exec(Step, s, Beginning(c, b.root)).value;
    EthRest(ready, s.nextBox, boxes, handlers, base, cap, c);
    var boxings := Boxings(c, EthParents(s.nextBox, handlers, |boxes| - 1), boxes[1..]);
    run := Beginning(c, b.root) + boxings;
    Join(Step, s, Beginning(c, b.root), boxings);
  }

  /** The live boxes are those of one Ethernet run, from box number `root` on. */
  ghost predicate HasEthTree(s: Stack, root: BoxId, boxes: seq<Layout>, handlers: nat, c: CallerId) {
    && s.At(c) == Running(root)
    && SinceReset(s.ops) == boxes
    && s.heap.cells.Keys == s.owner.Keys
    && (forall id: BoxId :: id in s.owner <==> root <= id < root + |boxes|)
    && root in s.owner && s.owner[root] == Frame(c)
    && (forall i: nat :: 0 < i < |boxes| ==>
          root + i in s.owner && s.owner[root + i] == Inside(root + EthParent(i, handlers)))
  }

  lemma OwnersAreLive(s: Stack, c: CallerId, first: BoxId, base: nat, cap: nat)
    requires RoomFor(s, c, first, [], base, cap)
    ensures s.owner.Keys == s.heap.cells.Keys
  {
  }

  lemma EthTree(ready: Stack, s: Stack, root: BoxId, boxes: seq<Layout>, handlers: nat, c: CallerId)
    requires s.owner.Keys == s.heap.cells.Keys
    requires boxes != [] && Boxed(ready, s, EthParents(root, handlers, |boxes| - 1), boxes[1..])
    requires ready.At(c) == Running(root) && ready.nextBox == root + 1
    requires ready.owner == map[root := Frame(c)] && SinceReset(ready.ops) == [boxes[0]]
    ensures HasEthTree(s, root, boxes, handlers, c)
  {
    hide EthParent;
    var parents := EthParents(root, handlers, |boxes| - 1);
    assert [boxes[0]] + boxes[1..] == boxes;
    forall i: nat | 0 < i < |boxes|
      ensures root + i in s.owner && s.owner[root + i] == Inside(root + EthParent(i, handlers))
    {
      assert parents[i - 1] == root + EthParent(i, handlers);
      assert root + i - ready.nextBox == i - 1;
    }
  }

  lemma {:induction false} StaysWired(s: Stack, es: seq<Event>)
    requires Exec(Step, s, es).Some?
    ensures Exec(Step, s, es).value.wireless == s.wireless
  {
    if es != [] {
      hide Step;
      StaysWired(s, es[..|es| - 1]);
      WiredStep(Exec(Step, s, es[..|es| - 1]).value, es[|es| - 1]);
    }
  }

  lemma WiredStep(s: Stack, e: Event)
    requires Step(s, e).Some?
    ensures Step(s, e).value.wireless == s.wireless
  {
  }
}
