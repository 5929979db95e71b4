/** Non-concurrent commissioning: one radio that carries either BLE or the operational network.

    `run_thread` and `run_wifi` are one and the same loop: a BLE phase if a window of the device's
    own is open, then an operational phase, over and over. Both phases work on state that outlives
    them: the verdict of the last scan or connect, the networks store, the flag that says whether
    the store was loaded, and the bump arena. Labels are what the surroundings, the commissioner
    and the scheduler do; a run is a sequence of labels. Runs with concurrent commissioning on the
    same stack, which share that state but have no phases, are labels too. */
module Handover {
  import opened Options
  import opened Lts
  import opened Placement
  import opened CommWindow

  type NetworkId = seq<int>
  type Creds = seq<int>
  type Networks = map<NetworkId, Creds>

  datatype Status = Success | Failure(code: int)

  /** The outcome of the last scan or connect. */
  datatype NetCtlState = NetCtlState(networkId: NetworkId, status: Option<Status>, error: Option<int>) {
    predicate ProvReady() {
      status == Some(Success) && networkId != []
    }
  }

  const CLEARED := NetCtlState([], None, None)

  /** What outlives the phases. */
  datatype Shared = Shared(hydrated: bool, networks: Networks, verdict: NetCtlState) {
    function ResetVerdict(): Shared {
      this.(verdict := CLEARED)
    }

    /** `StartupIm` with the store contents it loads one after the other, before it is done,
        fails, or is dropped. */
    function Startup(loads: seq<Networks>): Shared {
      if hydrated then this
      else Shared(true, if loads == [] then networks else loads[|loads| - 1], verdict)
    }
  }

  /** The fields of the stack and of its network that hold the shared state. */
  class StackFields {
    var imHydrated: bool
    var networks: Networks
    var networkId: NetworkId
    var networkingStatus: Option<Status>
    var connectErrorValue: Option<int>

    ghost function View(): Shared
      reads this
    {
      Shared(imHydrated, networks, NetCtlState(networkId, networkingStatus, connectErrorValue))
    }

    constructor ()
      ensures View() == Shared(false, map[], CLEARED)
    {
      imHydrated, networks := false, map[];
      networkId, networkingStatus, connectErrorValue := [], None, None;
    }

    /** Forget the outcome of the last scan or connect, and nothing else. */
    method ResetNetCtlState()
      modifies this
      ensures View() == old(View()).ResetVerdict() && !View().verdict.ProvReady()
    {
      networkId := [];
      networkingStatus := None;
      connectErrorValue := None;
    }

    /** Load the store, but only for the first Interaction Model that this stack ever runs. The
        flag is set first, so it stays set if loading fails or is dropped half way. */
    method StartupIm(loads: seq<Networks>, fails: bool) returns (ok: bool)
      modifies this
      ensures View() == old(View()).Startup(loads)
      ensures View().hydrated
      ensures old(imHydrated) ==> ok && networks == old(networks)
      ensures !old(imHydrated) ==> ok == !fails
      ensures !old(imHydrated) && loads != [] ==> networks == loads[|loads| - 1]
      ensures loads == [] ==> networks == old(networks)
      ensures View().verdict == old(View()).verdict
    {
      var hydrated := imHydrated;
      imHydrated := true;
      if hydrated {
        return true;
      }
      for i := 0 to |loads|
        invariant View() == old(View()).Startup(loads[..i])
      {
        networks := loads[i];
        assert loads[..i + 1][i] == loads[i];
      }
      assert loads[..|loads|] == loads;
      ok := !fails;
    }
  }

  // ---------------------------------------------------------------------------------------
  // The phases

  datatype Im = NotStarted | Loading | Serving

  datatype Phase =
    | Stopped
    | Deciding
    | Ble(im: Im, boxed: bool, ready: bool, gone: bool)
    | OperStarting(fromBle: bool)
    | Connecting(id: NetworkId, creds: Option<Creds>)
    | Oper(im: Im, wait: NextWait)
    | Concurrent(im: Im)

  /** Where a non-concurrent run keeps its boxes. */
  datatype Memory = Memory(base: nat, cap: nat, root: Layout, peripheral: Layout) {
    predicate Valid() {
      root.Valid() && peripheral.Valid()
    }

    /** The offset once the root future is boxed. */
    function RootEnd(): Option<nat>
      requires Valid()
    {
      Bump1(base, cap, 0, root)
    }
  }

  /** `serial` numbers the windows; `own` are the numbers of those the device opened for itself.
      `bleWindows` are the windows of the BLE phases of the current run, one per phase. `skipped`
      counts those phases that ended before they had boxed their peripheral, and `operOk` says
      whether in this run an operational phase ended because one of its own tasks returned without
      an error. */
  datatype Sys = Sys(
    mem: Memory,
    shared: Shared,
    window: Window,
    serial: nat,
    own: set<nat>,
    phase: Phase,
    offset: nat,
    bleWindows: seq<nat>,
    skipped: nat,
    operOk: bool)
  {
    /** Out of `run`, whichever way: the scope guard gives the arena back. */
    function Stop(): Sys {
      this.(phase := Stopped, offset := 0)
    }

    /** A BLE phase whose peripheral is not boxed yet. */
    predicate Boxing() {
      phase.Ble? && !phase.boxed
    }

    /** How many BLE phases of this run boxed their peripheral: all but those that skipped it, and
        but the present one if it is still to do so. */
    function Peripherals(): int {
      |bleWindows| - skipped - if Boxing() then 1 else 0
    }

    /** Between the boxing of the root future and the end of a non-concurrent run. */
    predicate InRun() {
      !phase.Stopped? && !phase.Concurrent?
    }

    /** An Interaction Model exists, and is at stage `im`. */
    predicate ImIs(im: Im) {
      (phase.Ble? || phase.Oper? || phase.Concurrent?) && phase.im == im
    }

    function Wrote(v: NetCtlState): Sys {
      this.(shared := shared.(verdict := v))
    }

    function WithIm(im: Im): Sys {
      match phase
      case Ble(_, boxed, ready, gone) => this.(phase := Ble(im, boxed, ready, gone))
      case Oper(_, wait) => this.(phase := Oper(im, wait))
      case Concurrent(_) => this.(phase := Concurrent(im))
      case _ => this
    }
  }

  /** Why a BLE phase ends without an error: one of the two watchers of `run_btp`, which are
      polled once the peripheral is boxed; or anything else that returns, be it another task of
      the phase or the driver that was to run them. */
  datatype BleCause = ProvisioningReady | WindowGone | BleTaskOk
  datatype OperCause = NextWindow | OperTaskOk

  datatype Event =
    | WindowOpens(opener: Option<Fabric>)
    | WindowCloses
    | Start
    | StartConcurrent
    | FactoryReset
    | Decide
    | BoxPeripheral
    | ImStarts
    | ImLoads(networks: Networks)
    | ImReady
    | Command(network: NetworkId, setTo: Option<Creds>)
    | Verdict(v: NetCtlState)
    | SeesReady
    | SeesGone
    | SeesBack
    | BleEnds(why: BleCause)
    | OperUp
    | ConnectEnds(v: NetCtlState, ok: bool)
    | OperEnds(cause: OperCause)
    | Stops

  function Get(networks: Networks, id: NetworkId): Option<Creds> {
    if id in networks then Some(networks[id]) else None
  }

  function Set(networks: Networks, id: NetworkId, c: Option<Creds>): (r: Networks)
    ensures Get(r, id) == c
    ensures forall other :: other != id ==> Get(r, other) == Get(networks, other)
  {
    if c.Some? then networks[id := c.value] else networks - {id}
  }

  function Step(s: Sys, e: Event): Option<Sys> {
    match e
    case WindowOpens(opener) =>
      if s.window.Open? then None else
        Some(s.(window := Open(opener), serial := s.serial + 1,
                own := if opener.None? then s.own + {s.serial + 1} else s.own))
    case WindowCloses =>
      if s.window.Open? then Some(s.(window := Closed)) else None
    case Start =>
      if !s.phase.Stopped? || !s.mem.Valid() then None else
        var entry := s.(bleWindows := [], skipped := 0, operOk := false);
        if s.mem.RootEnd().None? then Some(entry.Stop())
        else Some(entry.(phase := Deciding, offset := s.mem.RootEnd().value))
    case StartConcurrent =>
      // `run_coex`: one Interaction Model; its boxes are not counted here
      if !s.phase.Stopped? then None else
        Some(s.(bleWindows := [], skipped := 0, operOk := false, phase := Concurrent(NotStarted)))
    case FactoryReset =>
      // Needs the stack for itself, so no run is under way
      if !s.phase.Stopped? then None else Some(s.(shared := s.shared.(networks := map[])))
    case Decide =>
      if !s.phase.Deciding? then None
      else if s.window.OnAllTransports() then
        Some(s.(shared := s.shared.ResetVerdict(), bleWindows := s.bleWindows + [s.serial],
                phase := Ble(NotStarted, false, false, false)))
      else Some(s.(phase := OperStarting(false)))
    case BoxPeripheral =>
      if !s.Boxing() || !s.mem.Valid() || s.offset > s.mem.cap then None else
        var end := Bump1(s.mem.base, s.mem.cap, s.offset, s.mem.peripheral);
        if end.None? then Some(s.Stop())
        else Some(s.(phase := s.phase.(boxed := true), offset := end.value))
    case ImStarts =>
      if s.ImIs(NotStarted) then
        Some(s.(shared := s.shared.Startup([])).WithIm(if s.shared.hydrated then Im.Serving else Loading))
      else None
    case ImLoads(networks) =>
      if s.ImIs(Loading) then
        Some(s.(shared := s.shared.(networks := networks)))
      else None
    case ImReady =>
      if s.ImIs(Loading) then Some(s.WithIm(Im.Serving)) else None
    case Command(id, c) =>
      if s.ImIs(Im.Serving) then Some(s.(shared := s.shared.(networks := Set(s.shared.networks, id, c)))) else None
    case Verdict(v) =>
      if s.ImIs(Im.Serving) then Some(s.Wrote(v)) else None
    case SeesReady =>
      if s.phase.Ble? && s.phase.boxed && s.shared.verdict.ProvReady() then
        Some(s.(phase := s.phase.(ready := true)))
      else None
    case SeesGone =>
      if s.window.OnAllTransports() then None
      else if s.phase.Ble? && s.phase.boxed then Some(s.(phase := s.phase.(gone := true)))
      else if s.phase.Oper? && s.phase.wait.AwaitGone? then Some(s.(phase := s.phase.(wait := AwaitBack)))
      else None
    case SeesBack =>
      if s.window.OnAllTransports() && s.phase.Oper? && s.phase.wait.AwaitBack? then
        Some(s.(phase := s.phase.(wait := Appeared)))
      else None
    case BleEnds(why) =>
      if s.phase.Ble? && (why.ProvisioningReady? ==> s.phase.ready) && (why.WindowGone? ==> s.phase.gone) then
        Some(s.(phase := OperStarting(true), skipped := s.skipped + if s.phase.boxed then 0 else 1))
      else None
    case OperUp =>
      if !s.phase.OperStarting? then None
      else if s.shared.verdict.ProvReady() then
        Some(s.(phase := Connecting(s.shared.verdict.networkId, Get(s.shared.networks, s.shared.verdict.networkId))))
      else Some(s.(phase := Oper(NotStarted, AwaitGone)))
    case ConnectEnds(v, ok) =>
      if !s.phase.Connecting? then None
      else if ok then Some(s.Wrote(v).(phase := Oper(NotStarted, AwaitGone)))
      else Some(s.Wrote(v).Stop())
    case OperEnds(cause) =>
      if !s.phase.Oper? || (cause.NextWindow? && !s.phase.wait.Appeared?) then None
      else Some(s.(phase := Deciding, operOk := s.operOk || cause.OperTaskOk?))
    case Stops =>
      if s.phase.Stopped? then None else Some(s.Stop())
  }

  /** A stack at boot, with whatever is in the compiled-in store. */
  function Boot(mem: Memory, networks: Networks): Sys {
    Sys(mem, Shared(false, networks, CLEARED), Closed, 0, {}, Stopped, 0, [], 0, false)
  }

  /** The state after `es`. */
  function After(mem: Memory, networks: Networks, es: seq<Event>): Sys
    requires Exec(Step, Boot(mem, networks), es).Some?
  {
    Exec(Step, Boot(mem, networks), es).value
  }

  predicate Possible(mem: Memory, networks: Networks, es: seq<Event>) {
    Exec(Step, Boot(mem, networks), es).Some?
  }

  lemma Front(mem: Memory, networks: Networks, es: seq<Event>)
    requires Possible(mem, networks, es) && es != []
    ensures Possible(mem, networks, es[..|es| - 1])
    ensures Step(After(mem, networks, es[..|es| - 1]), es[|es| - 1]) == Some(After(mem, networks, es))
  {
  }

  lemma UpTo(mem: Memory, networks: Networks, es: seq<Event>, n: nat)
    requires Possible(mem, networks, es) && n <= |es|
    ensures Possible(mem, networks, es[..n])
  {
    PrefixRuns(Step, Boot(mem, networks), es, n);
  }

  // ---------------------------------------------------------------------------------------
  // Hydration

  /** Once loading is over there is no more loading. */
  predicate Loaded(s: Sys) {
    s.shared.hydrated && !s.ImIs(Loading)
  }

  ghost predicate HydrationInv(s: Sys) {
    s.ImIs(Loading) || s.ImIs(Im.Serving) ==> s.shared.hydrated
  }

  lemma StepKeepsHydrationInv(s: Sys, e: Event)
    requires HydrationInv(s) && Step(s, e).Some?
    ensures HydrationInv(Step(s, e).value)
  {
  }

  lemma {:induction false} HydrationInvHolds(mem: Memory, networks: Networks, es: seq<Event>)
    requires Possible(mem, networks, es)
    ensures HydrationInv(After(mem, networks, es))
  {
    if es != [] {
      Front(mem, networks, es);
      HydrationInvHolds(mem, networks, es[..|es| - 1]);
      StepKeepsHydrationInv(After(mem, networks, es[..|es| - 1]), es[|es| - 1]);
    }
  }

  lemma LoadedStep(s: Sys, e: Event)
    requires Loaded(s) && Step(s, e).Some?
    ensures Loaded(Step(s, e).value) && !e.ImLoads?
  {
  }

  lemma {:induction false} LoadedStays(mem: Memory, networks: Networks, es: seq<Event>, n: nat)
    requires Possible(mem, networks, es) && n <= |es|
    requires Possible(mem, networks, es[..n]) && Loaded(After(mem, networks, es[..n]))
    ensures Loaded(After(mem, networks, es))
    ensures n < |es| ==> !es[|es| - 1].ImLoads?
  {
    if n == |es| {
      assert es[..n] == es;
    } else {
      Front(mem, networks, es);
      var front := es[..|es| - 1];
      assert front[..n] == es[..n];
      LoadedStays(mem, networks, front, n);
      LoadedStep(After(mem, networks, front), es[|es| - 1]);
    }
  }

  lemma NoLoadsAfter(mem: Memory, networks: Networks, es: seq<Event>, n: nat)
    requires Possible(mem, networks, es) && n <= |es|
    requires Possible(mem, networks, es[..n]) && Loaded(After(mem, networks, es[..n]))
    ensures forall k :: n <= k < |es| ==> !es[k].ImLoads?
  {
    forall k | n <= k < |es| ensures !es[k].ImLoads? {
      UpTo(mem, networks, es, k + 1);
      assert es[..k + 1][..n] == es[..n];
      LoadedStays(mem, networks, es[..k + 1], n);
    }
  }

  predicate ImStartedBefore(es: seq<Event>, n: nat)
    requires n <= |es|
  {
    exists i :: 0 <= i < n && es[i].ImStarts?
  }

  lemma OnlyStartsHydrate(s: Sys, e: Event)
    requires Step(s, e).Some?
    ensures Step(s, e).value.shared.hydrated <==> s.shared.hydrated || e.ImStarts?
  {
  }

  lemma {:induction false} HydratedSinceFirstStart(mem: Memory, networks: Networks, es: seq<Event>)
    requires Possible(mem, networks, es)
    ensures After(mem, networks, es).shared.hydrated <==> ImStartedBefore(es, |es|)
  {
    hide Step;
    if es != [] {
      Front(mem, networks, es);
      var front := es[..|es| - 1];
      HydratedSinceFirstStart(mem, networks, front);
      OnlyStartsHydrate(After(mem, networks, front), es[|es| - 1]);
      assert ImStartedBefore(es, |es|) <==> ImStartedBefore(front, |front|) || es[|es| - 1].ImStarts?;
    }
  }

  /** Over all runs and phases together, also when startup fails or is dropped, an Interaction
      Model loads the store exactly if it is the first one ever started. */
  lemma OnlyTheFirstLoads(mem: Memory, networks: Networks, es: seq<Event>)
    requires Possible(mem, networks, es + [ImStarts])
    ensures var s := After(mem, networks, es + [ImStarts]);
            && (s.ImIs(Loading) <==> !ImStartedBefore(es, |es|))
            && (s.ImIs(Im.Serving) <==> ImStartedBefore(es, |es|))
  {
    var all := es + [ImStarts];
    Front(mem, networks, all);
    assert all[..|es|] == es;
    HydratedSinceFirstStart(mem, networks, es);
  }

  /** So once a second one has started there is no more loading. */
  lemma HydratesAtMostOnce(mem: Memory, networks: Networks, es: seq<Event>, i: nat, j: nat)
    requires Possible(mem, networks, es) && i < j < |es|
    requires es[i].ImStarts? && es[j].ImStarts?
    ensures forall k :: j <= k < |es| ==> !es[k].ImLoads?
  {
    UpTo(mem, networks, es, j);
    UpTo(mem, networks, es, j + 1);
    assert es[..j + 1][..j] == es[..j];
    Front(mem, networks, es[..j + 1]);
    HydratedSinceFirstStart(mem, networks, es[..j]);
    assert es[..j][i] == es[i];
    NoLoadsAfter(mem, networks, es, j);
  }

  /** A startup that is interrupted is not made up for: once some Interaction Model has started
      and none is loading, nothing that happens ever loads the store again. */
  lemma NoLoadsOnceInterrupted(mem: Memory, networks: Networks, es: seq<Event>, later: seq<Event>)
    requires Possible(mem, networks, es) && Possible(mem, networks, es + later)
    requires ImStartedBefore(es, |es|) && !After(mem, networks, es).ImIs(Loading)
    ensures forall k :: 0 <= k < |later| ==> !later[k].ImLoads?
  {
    var all := es + later;
    assert all[..|es|] == es;
    HydratedSinceFirstStart(mem, networks, es);
    NoLoadsAfter(mem, networks, all, |es|);
    forall k | 0 <= k < |later| ensures !later[k].ImLoads? {
      assert all[|es| + k] == later[k];
    }
  }

  predicate LoadsLater(mem: Memory, networks: Networks, es: seq<Event>, later: seq<Event>) {
    Possible(mem, networks, es + later) && exists k :: 0 <= k < |later| && later[k].ImLoads?
  }

  /** From a stack that never started an Interaction Model one can be brought to load the store. */
  lemma LoadAhead(s: Sys) returns (later: seq<Event>)
    requires !s.shared.hydrated && HydrationInv(s)
    ensures Exec(Step, s, later).Some? && exists k :: 0 <= k < |later| && later[k].ImLoads?
  {
    var stop := if s.phase.Stopped? then [] else [Stops];
    var stopped := if s.phase.Stopped? then s else s.Stop();
    TrailRuns(Step, if s.phase.Stopped? then [s] else [s, stopped], stop);
    var up := stopped.(bleWindows := [], skipped := 0, operOk := false, phase := Concurrent(NotStarted));
    var loading := up.(shared := up.shared.(hydrated := true), phase := Concurrent(Loading));
    var load := [StartConcurrent, ImStarts, ImLoads(map[])];
    TrailRuns(Step, [stopped, up, loading, loading.(shared := loading.shared.(networks := map[]))], load);
    Join(Step, s, stop, load);
    later := stop + load;
    assert later[|stop| + 2].ImLoads?;
  }

  /** Exactly when the store can still be loaded in this boot: no Interaction Model has ever
      started, or the one that started first is still loading. */
  lemma InterruptedStartupIsFinal(mem: Memory, networks: Networks, es: seq<Event>)
    requires Possible(mem, networks, es)
    ensures (exists later :: LoadsLater(mem, networks, es, later)) <==>
              !ImStartedBefore(es, |es|) || After(mem, networks, es).ImIs(Loading)
  {
    var s := After(mem, networks, es);
    if ImStartedBefore(es, |es|) && !s.ImIs(Loading) {
      forall later | Possible(mem, networks, es + later) ensures !LoadsLater(mem, networks, es, later) {
        NoLoadsOnceInterrupted(mem, networks, es, later);
      }
    } else {
      HydratedSinceFirstStart(mem, networks, es);
      HydrationInvHolds(mem, networks, es);
      var later;
      if s.ImIs(Loading) {
        later := [ImLoads(map[])];
        TrailRuns(Step, [s, s.(shared := s.shared.(networks := map[]))], later);
        assert later[0].ImLoads?;
      } else {
        later := LoadAhead(s);
      }
      Join(Step, Boot(mem, networks), es, later);
      assert LoadsLater(mem, networks, es, later);
    }
  }

  /** That can happen before anything was loaded: drop `run` while its first Interaction Model
      starts up, and the store is as it was at boot, and the persisted one is not read again until
      the next boot. */
  lemma StartupCanBeLost(mem: Memory, networks: Networks, later: seq<Event>)
    requires mem.Valid() && mem.RootEnd().Some?
    ensures var es := [Start, Decide, OperUp, ImStarts, Stops];
            && Possible(mem, networks, es)
            && After(mem, networks, es).shared.networks == networks
            && !LoadsLater(mem, networks, es, later)
  {
    var es := [Start, Decide, OperUp, ImStarts, Stops];
    var up := OperatingFrom(mem, networks);
    FollowedTo(mem, networks, up, es);
    assert es[3].ImStarts?;
    InterruptedStartupIsFinal(mem, networks, es);
  }

  lemma FollowedTo(mem: Memory, networks: Networks, up: seq<Sys>, es: seq<Event>)
    requires Trail(Step, [Boot(mem, networks)] + up, [Start, Decide, OperUp, ImStarts, ImReady])
    requires es == [Start, Decide, OperUp, ImStarts, Stops] && !up[3].phase.Stopped?
    ensures Possible(mem, networks, es) && After(mem, networks, es) == up[3].Stop()
  {
    Stopping(up[3]);
    hide Step;
    var states, all := [Boot(mem, networks)] + up, [Start, Decide, OperUp, ImStarts, ImReady];
    TrailRuns(Step, states[..5], all[..4]);
    assert es[..4] == all[..4];
  }

  lemma Stopping(s: Sys)
    requires !s.phase.Stopped?
    ensures Step(s, Stops) == Some(s.Stop())
  {
  }

  function Loads(loads: seq<Networks>): seq<Event> {
    seq(|loads|, i requires 0 <= i < |loads| => ImLoads(loads[i]))
  }

  /** What `StartupIm` does at one stroke a run does step by step. */
  lemma {:induction false} StartupInSteps(s: Sys, loads: seq<Networks>)
    requires s.ImIs(NotStarted) && !s.shared.hydrated
    ensures var r := Exec(Step, s, [ImStarts] + Loads(loads));
            r.Some? && r.value.ImIs(Loading) && r.value.shared == s.shared.Startup(loads)
  {
    var es := [ImStarts] + Loads(loads);
    if loads == [] {
      assert es == [ImStarts] && es[..0] == [];
    } else {
      StartupInSteps(s, loads[..|loads| - 1]);
      assert es[..|es| - 1] == [ImStarts] + Loads(loads[..|loads| - 1]);
    }
  }

  // ---------------------------------------------------------------------------------------
  // The store

  /** What the store holds for network `id`: the last load, command about it, or factory reset
      decides, and before any of these what was there at boot. */
  function Stored(networks: Networks, es: seq<Event>, id: NetworkId): Option<Creds> {
    if es == [] then Get(networks, id) else
      match es[|es| - 1]
      case ImLoads(loaded) => Get(loaded, id)
      case Command(network, setTo) => if network == id then setTo else Stored(networks, es[..|es| - 1], id)
      case FactoryReset => None
      case _ => Stored(networks, es[..|es| - 1], id)
  }

  lemma StoreStep(s: Sys, e: Event, id: NetworkId)
    requires Step(s, e).Some?
    ensures var before, after := Get(s.shared.networks, id), Get(Step(s, e).value.shared.networks, id);
            match e
            case ImLoads(loaded) => after == Get(loaded, id)
            case Command(network, setTo) => after == if network == id then setTo else before
            case FactoryReset => after == None
            case _ => after == before
  {
  }

  /** Nothing else ever touches the store, in whatever run and phase. */
  lemma {:induction false} StoreIsLastWritten(mem: Memory, networks: Networks, es: seq<Event>, id: NetworkId)
    requires Possible(mem, networks, es)
    ensures Get(After(mem, networks, es).shared.networks, id) == Stored(networks, es, id)
  {
    if es != [] {
      hide Step;
      Front(mem, networks, es);
      var front := es[..|es| - 1];
      StoreIsLastWritten(mem, networks, front, id);
      StoreStep(After(mem, networks, front), es[|es| - 1], id);
    }
  }

  /** In particular a load that nothing followed is what the store holds. */
  lemma {:induction false} LastLoadStands(mem: Memory, networks: Networks, es: seq<Event>, i: nat)
    requires Possible(mem, networks, es) && i < |es| && es[i].ImLoads?
    requires forall j :: i < j < |es| ==> !es[j].ImLoads? && !es[j].Command? && !es[j].FactoryReset?
    ensures After(mem, networks, es).shared.networks == es[i].networks
  {
    var store := After(mem, networks, es).shared.networks;
    forall id: NetworkId ensures Get(store, id) == Get(es[i].networks, id) {
      StoreIsLastWritten(mem, networks, es, id);
      StoredSince(networks, es, i, id);
    }
    assert forall id: NetworkId :: id in store ==> Get(store, id) == Get(es[i].networks, id);
    assert forall id: NetworkId :: id in es[i].networks ==> Get(store, id) == Get(es[i].networks, id);
  }

  lemma {:induction false} StoredSince(networks: Networks, es: seq<Event>, i: nat, id: NetworkId)
    requires i < |es| && es[i].ImLoads?
    requires forall j :: i < j < |es| ==> !es[j].ImLoads? && !es[j].Command? && !es[j].FactoryReset?
    ensures Stored(networks, es, id) == Get(es[i].networks, id)
  {
    if i < |es| - 1 {
      StoredSince(networks, es[..|es| - 1], i, id);
    }
  }

  predicate About(e: Event, id: NetworkId) {
    e.Command? && e.network == id
  }

  /** Event `i` is the last one that decides what the store holds for its network. */
  predicate LastAbout(es: seq<Event>, i: nat) {
    && i < |es| && es[i].Command?
    && forall j :: i < j < |es| ==> !About(es[j], es[i].network) && !es[j].FactoryReset?
  }

  lemma CommandStep(s: Sys, e: Event, id: NetworkId)
    requires HydrationInv(s) && Step(s, e).Some?
    ensures e.Command? || Loaded(s) ==> Loaded(Step(s, e).value)
    ensures About(e, id) ==> Get(Step(s, e).value.shared.networks, id) == e.setTo
    ensures Loaded(s) && !About(e, id) && !e.FactoryReset? ==>
              Get(Step(s, e).value.shared.networks, id) == Get(s.shared.networks, id)
  {
  }

  /** No load undoes a command: the last command about a network decides what the store holds for
      it, whatever runs, phases and startups came between. (A factory reset empties the store.) */
  lemma {:induction false} LastCommandStands(mem: Memory, networks: Networks, es: seq<Event>, i: nat)
    requires Possible(mem, networks, es) && LastAbout(es, i)
    ensures Loaded(After(mem, networks, es))
    ensures Get(After(mem, networks, es).shared.networks, es[i].network) == es[i].setTo
  {
    Front(mem, networks, es);
    var front := es[..|es| - 1];
    HydrationInvHolds(mem, networks, front);
    CommandStep(After(mem, networks, front), es[|es| - 1], es[i].network);
    if i < |front| {
      LastCommandStands(mem, networks, front, i);
    }
  }

  // ---------------------------------------------------------------------------------------
  // The deferred connect

  predicate Writes(e: Event) {
    e.Verdict? || e.ConnectEnds?
  }

  /** Event `j` of the run starts a BLE phase and thereby clears the verdict. */
  predicate EntersBle(mem: Memory, networks: Networks, es: seq<Event>, j: nat) {
    && j < |es| && es[j].Decide?
    && Possible(mem, networks, es[..j]) && After(mem, networks, es[..j]).window.OnAllTransports()
  }

  /** Event `i` wrote the verdict that still stands after `es`. */
  ghost predicate StandsSince(mem: Memory, networks: Networks, es: seq<Event>, i: nat) {
    && i < |es| && Writes(es[i])
    && forall j :: i < j < |es| ==> !Writes(es[j]) && !EntersBle(mem, networks, es, j)
  }

  lemma {:induction false} StandingVerdict(mem: Memory, networks: Networks, es: seq<Event>, i: nat)
    requires Possible(mem, networks, es) && StandsSince(mem, networks, es, i)
    ensures After(mem, networks, es).shared.verdict == es[i].v
  {
    Front(mem, networks, es);
    var front := es[..|es| - 1];
    if i < |front| {
      forall j | i < j < |front| ensures !EntersBle(mem, networks, front, j) {
        assert front[..j] == es[..j];
      }
      StandingVerdict(mem, networks, front, i);
      assert !Writes(es[|es| - 1]) && !EntersBle(mem, networks, es, |es| - 1);
    }
  }

  lemma {:induction false} VerdictHasWriter(mem: Memory, networks: Networks, es: seq<Event>)
    requires Possible(mem, networks, es)
    ensures After(mem, networks, es).shared.verdict == CLEARED || exists i: nat :: StandsSince(mem, networks, es, i)
  {
    if es != [] {
      Front(mem, networks, es);
      var front := es[..|es| - 1];
      VerdictHasWriter(mem, networks, front);
      var last := |es| - 1;
      if Writes(es[last]) {
        assert StandsSince(mem, networks, es, last);
      } else if !EntersBle(mem, networks, es, last) && exists i: nat :: StandsSince(mem, networks, front, i) {
        var i: nat :| StandsSince(mem, networks, front, i);
        forall j | i < j < |es| ensures !Writes(es[j]) && !EntersBle(mem, networks, es, j) {
          if j < last {
            assert front[..j] == es[..j];
            assert !EntersBle(mem, networks, front, j);
          }
        }
        assert StandsSince(mem, networks, es, i);
      }
    }
  }

  /** The one-shot connect of an operational phase. It is made exactly when the latest verdict
      since boot, and since the start of the latest BLE phase, is a ready one; and it is made to
      the network which that verdict names. */
  lemma DeferredConnectIsFresh(mem: Memory, networks: Networks, es: seq<Event>, id: NetworkId)
    requires Possible(mem, networks, es + [OperUp])
    ensures Possible(mem, networks, es)
    ensures var s := After(mem, networks, es + [OperUp]);
            s.phase.Connecting? && s.phase.id == id <==>
              exists i: nat :: StandsSince(mem, networks, es, i) && es[i].v.ProvReady() && es[i].v.networkId == id
  {
    var all := es + [OperUp];
    Front(mem, networks, all);
    assert all[..|all| - 1] == es;
    var s := After(mem, networks, es);
    VerdictHasWriter(mem, networks, es);
    if s.shared.verdict.ProvReady() {
      var i: nat :| StandsSince(mem, networks, es, i);
      StandingVerdict(mem, networks, es, i);
      assert es[i].v == s.shared.verdict;
    }
    if exists i: nat :: StandsSince(mem, networks, es, i) && es[i].v.ProvReady() && es[i].v.networkId == id {
      var i: nat :| StandsSince(mem, networks, es, i) && es[i].v.ProvReady() && es[i].v.networkId == id;
      StandingVerdict(mem, networks, es, i);
    }
  }

  /** The credentials it looks up are those of the last command about that network. */
  lemma DeferredConnectFindsCredentials(mem: Memory, networks: Networks, es: seq<Event>, i: nat)
    requires Possible(mem, networks, es + [OperUp])
    requires After(mem, networks, es + [OperUp]).phase.Connecting?
    requires LastAbout(es, i) && es[i].network == After(mem, networks, es + [OperUp]).phase.id
    ensures After(mem, networks, es + [OperUp]).phase.creds == es[i].setTo
  {
    var all := es + [OperUp];
    Front(mem, networks, all);
    assert all[..|all| - 1] == es;
    LastCommandStands(mem, networks, es, i);
  }

  /** Whatever the history, it looks up what the store holds for the network it connects to. */
  lemma DeferredConnectLooksUpStore(mem: Memory, networks: Networks, es: seq<Event>)
    requires Possible(mem, networks, es + [OperUp])
    requires After(mem, networks, es + [OperUp]).phase.Connecting?
    ensures var c := After(mem, networks, es + [OperUp]).phase; c.creds == Stored(networks, es, c.id) && |c.id| > 0
  {
    var all := es + [OperUp];
    Front(mem, networks, all);
    assert all[..|all| - 1] == es;
    StoreIsLastWritten(mem, networks, es, After(mem, networks, all).phase.id);
  }

  /** An operational phase serves only if the connect it owed, if any, was made and succeeded. */
  lemma {:induction false} ServesOnlyConnected(mem: Memory, networks: Networks, es: seq<Event>, up: nat)
    requires Possible(mem, networks, es) && After(mem, networks, es).phase.Oper?
    requires up < |es| && es[up].OperUp? && forall k :: up < k < |es| ==> !es[k].OperUp?
    ensures forall k :: up < k < |es| && es[k].ConnectEnds? ==> es[k].ok
    ensures Possible(mem, networks, es[..up + 1])
    ensures After(mem, networks, es[..up + 1]).phase.Connecting? ==> exists k :: up < k < |es| && es[k].ConnectEnds?
  {
    hide Step;
    Front(mem, networks, es);
    var front, last := es[..|es| - 1], |es| - 1;
    if up == last {
      assert es[..up + 1] == es;
    } else {
      OperatingStep(After(mem, networks, front), es[last]);
      assert front[..up + 1] == es[..up + 1];
      if es[last].ConnectEnds? {
        NothingWhileConnecting(mem, networks, front, up);
        assert forall k :: up < k < last ==> es[k] == front[k];
      } else {
        ServesOnlyConnected(mem, networks, front, up);
        if After(mem, networks, es[..up + 1]).phase.Connecting? {
          var k :| up < k < |front| && front[k].ConnectEnds?;
          assert es[k].ConnectEnds?;
        }
      }
    }
  }

  lemma OperatingStep(s: Sys, e: Event)
    requires Step(s, e).Some? && Step(s, e).value.phase.Oper? && !e.OperUp?
    ensures if e.ConnectEnds? then e.ok && s.phase.Connecting? else s.phase.Oper?
  {
  }

  lemma {:induction false} NothingWhileConnecting(mem: Memory, networks: Networks, es: seq<Event>, up: nat)
    requires Possible(mem, networks, es) && After(mem, networks, es).phase.Connecting?
    requires up < |es| && es[up].OperUp? && forall k :: up < k < |es| ==> !es[k].OperUp?
    ensures forall k :: up < k < |es| ==> !es[k].ConnectEnds?
    ensures Possible(mem, networks, es[..up + 1])
  {
    hide Step;
    Front(mem, networks, es);
    var front, last := es[..|es| - 1], |es| - 1;
    if up == last {
      assert es[..up + 1] == es;
    } else {
      ConnectingStep(After(mem, networks, front), es[last]);
      assert front[..up + 1] == es[..up + 1];
      NothingWhileConnecting(mem, networks, front, up);
    }
  }

  lemma ConnectingStep(s: Sys, e: Event)
    requires Step(s, e).Some? && Step(s, e).value.phase.Connecting? && !e.OperUp?
    ensures s.phase.Connecting? && !e.ConnectEnds?
  {
  }

  /** A failed connect ends the run with its verdict left behind, a successful one does not. */
  lemma FailedConnectEndsRun(mem: Memory, networks: Networks, es: seq<Event>, v: NetCtlState, ok: bool)
    requires Possible(mem, networks, es) && After(mem, networks, es).phase.Connecting?
    ensures Possible(mem, networks, es + [ConnectEnds(v, ok)])
    ensures var s := After(mem, networks, es + [ConnectEnds(v, ok)]);
            && s.shared.verdict == v && s.phase == (if ok then Oper(NotStarted, AwaitGone) else Stopped)
            && (!ok ==> s.offset == 0)
  {
    assert (es + [ConnectEnds(v, ok)])[..|es|] == es;
  }

  predicate FromBle(s: Sys) {
    s.phase.Ble? || s.phase == OperStarting(true)
  }

  lemma FromBleStep(s: Sys, e: Event)
    requires Step(s, e).Some? && FromBle(Step(s, e).value) && !(e.Decide? && s.window.OnAllTransports())
    ensures FromBle(s)
  {
  }

  /** What a BLE phase has seen it has seen in itself. */
  lemma SeenInBle(s: Sys, e: Event)
    requires Step(s, e).Some?
    ensures var p := Step(s, e).value.phase;
            && (p.Ble? && (p.ready || p.gone) ==> s.phase.Ble? && !e.Decide?)
            && (p.Ble? && p.ready && !e.SeesReady? ==> s.phase.ready)
            && (p.Ble? && p.gone && !e.SeesGone? ==> s.phase.gone)
            && (e.SeesReady? ==> s.shared.verdict.ProvReady())
            && (e.SeesGone? ==> !s.window.OnAllTransports())
  {
  }

  /** Back to its start, nothing but a BLE phase precedes one. */
  lemma {:induction false} BleSince(mem: Memory, networks: Networks, es: seq<Event>, n: nat)
    requires Possible(mem, networks, es) && n <= |es| && FromBle(After(mem, networks, es))
    requires forall j :: n <= j < |es| ==> !EntersBle(mem, networks, es, j)
    ensures Possible(mem, networks, es[..n]) && FromBle(After(mem, networks, es[..n]))
  {
    if n == |es| {
      assert es[..n] == es;
    } else {
      hide Step;
      Front(mem, networks, es);
      var front := es[..|es| - 1];
      assert !EntersBle(mem, networks, es, |front|);
      FromBleStep(After(mem, networks, front), es[|front|]);
      forall j | n <= j < |front| ensures !EntersBle(mem, networks, front, j) {
        assert front[..j] == es[..j];
        assert !EntersBle(mem, networks, es, j);
      }
      BleSince(mem, networks, front, n);
      assert front[..n] == es[..n];
    }
  }

  /** Event `i` wrote a ready verdict in a BLE phase that has not been followed by another one. */
  ghost predicate ReadyInThisBle(mem: Memory, networks: Networks, es: seq<Event>, i: nat) {
    && i < |es| && es[i].Verdict? && es[i].v.ProvReady()
    && Possible(mem, networks, es[..i]) && After(mem, networks, es[..i]).phase.Ble?
    && forall j :: i < j < |es| ==> !EntersBle(mem, networks, es, j)
  }

  lemma WritesInBle(s: Sys, e: Event)
    requires Writes(e) && Step(s, e).Some? && FromBle(Step(s, e).value)
    ensures e.Verdict? && s.phase.Ble?
  {
  }

  lemma ReadyVerdictIsOfThisBle(mem: Memory, networks: Networks, es: seq<Event>) returns (i: nat)
    requires Possible(mem, networks, es) && FromBle(After(mem, networks, es))
    requires After(mem, networks, es).shared.verdict.ProvReady()
    ensures ReadyInThisBle(mem, networks, es, i) && StandsSince(mem, networks, es, i)
  {
    VerdictHasWriter(mem, networks, es);
    i :| StandsSince(mem, networks, es, i);
    StandingVerdict(mem, networks, es, i);
    BleSince(mem, networks, es, i + 1);
    UpTo(mem, networks, es, i + 1);
    assert es[..i + 1][..i] == es[..i];
    Front(mem, networks, es[..i + 1]);
    WritesInBle(After(mem, networks, es[..i]), es[i]);
  }

  /** A BLE phase that ends because provisioning is ready owes that to a verdict of its own, not
      to one left over from an earlier commissioning. */
  lemma BleEndsOnItsOwnVerdict(mem: Memory, networks: Networks, es: seq<Event>)
    requires Possible(mem, networks, es + [BleEnds(ProvisioningReady)])
    ensures exists i: nat :: ReadyInThisBle(mem, networks, es, i)
  {
    var all := es + [BleEnds(ProvisioningReady)];
    Front(mem, networks, all);
    assert all[..|all| - 1] == es;
    ReadyIsOfThisBle(mem, networks, es);
  }

  lemma {:induction false} ReadyIsOfThisBle(mem: Memory, networks: Networks, es: seq<Event>)
    requires Possible(mem, networks, es)
    requires After(mem, networks, es).phase.Ble? && After(mem, networks, es).phase.ready
    ensures exists i: nat :: ReadyInThisBle(mem, networks, es, i)
  {
    Front(mem, networks, es);
    var front, last := es[..|es| - 1], |es| - 1;
    hide Step;
    var s := After(mem, networks, front);
    SeenInBle(s, es[last]);
    var i: nat;
    if es[last].SeesReady? {
      i := ReadyVerdictIsOfThisBle(mem, networks, front);
    } else {
      ReadyIsOfThisBle(mem, networks, front);
      i :| ReadyInThisBle(mem, networks, front, i);
    }
    assert !EntersBle(mem, networks, es, last);
    forall j | i < j < |es| ensures !EntersBle(mem, networks, es, j) {
      if j < last {
        assert front[..j] == es[..j];
        assert !EntersBle(mem, networks, front, j);
      }
    }
    assert front[..i] == es[..i];
    assert ReadyInThisBle(mem, networks, es, i);
  }

  /** One that ends because its window is gone saw, during itself, no window of the device's own. */
  lemma BleEndsOnItsOwnWindow(mem: Memory, networks: Networks, es: seq<Event>) returns (n: nat)
    requires Possible(mem, networks, es + [BleEnds(WindowGone)])
    ensures n < |es| && Possible(mem, networks, es[..n])
    ensures After(mem, networks, es[..n]).phase.Ble? && !After(mem, networks, es[..n]).window.OnAllTransports()
    ensures forall j :: n <= j < |es| ==> !EntersBle(mem, networks, es, j)
  {
    var all := es + [BleEnds(WindowGone)];
    Front(mem, networks, all);
    assert all[..|all| - 1] == es;
    n := GoneInThisBle(mem, networks, es);
  }

  lemma {:induction false} GoneInThisBle(mem: Memory, networks: Networks, es: seq<Event>) returns (n: nat)
    requires Possible(mem, networks, es)
    requires After(mem, networks, es).phase.Ble? && After(mem, networks, es).phase.gone
    ensures n < |es| && Possible(mem, networks, es[..n])
    ensures After(mem, networks, es[..n]).phase.Ble? && !After(mem, networks, es[..n]).window.OnAllTransports()
    ensures forall j :: n <= j < |es| ==> !EntersBle(mem, networks, es, j)
  {
    Front(mem, networks, es);
    var front, last := es[..|es| - 1], |es| - 1;
    hide Step;
    SeenInBle(After(mem, networks, front), es[last]);
    n := last;
    if !es[last].SeesGone? {
      n := GoneInThisBle(mem, networks, front);
      assert front[..n] == es[..n];
    }
    assert !EntersBle(mem, networks, es, last);
    forall j | n <= j < last ensures !EntersBle(mem, networks, es, j) {
      assert front[..j] == es[..j];
      assert !EntersBle(mem, networks, front, j);
    }
  }

  /** In one operational phase, `wait_next_comm_window` saw no window of the device's own at moment
      `gone`, and, unless it still waits for that, one at the later moment `back`. */
  ghost predicate SawNextWindow(mem: Memory, networks: Networks, es: seq<Event>, gone: nat, back: Option<nat>) {
    && gone < |es| && Possible(mem, networks, es[..gone])
    && After(mem, networks, es[..gone]).phase.Oper? && !After(mem, networks, es[..gone]).window.OnAllTransports()
    && (back.Some? ==>
          && gone < back.value < |es| && Possible(mem, networks, es[..back.value])
          && After(mem, networks, es[..back.value]).phase.Oper?
          && After(mem, networks, es[..back.value]).window.OnAllTransports())
    && forall j :: gone <= j < |es| ==> !es[j].OperUp? && !es[j].Decide?
  }

  lemma NextWaitStep(s: Sys, e: Event)
    requires Step(s, e).Some? && Step(s, e).value.phase.Oper?
    ensures var wait := Step(s, e).value.phase.wait;
            && !e.Decide?
            && (wait.AwaitBack? ==>
                  s.phase.Oper? && !e.OperUp? &&
                  (s.phase.wait.AwaitBack? || (e.SeesGone? && !s.window.OnAllTransports())))
            && (wait.Appeared? ==>
                  s.phase.Oper? && !e.OperUp? &&
                  (s.phase.wait.Appeared? || (e.SeesBack? && s.phase.wait.AwaitBack? && s.window.OnAllTransports())))
  {
  }

  lemma {:induction false} NextWindowSeen(mem: Memory, networks: Networks, es: seq<Event>) returns (gone: nat, back: Option<nat>)
    requires Possible(mem, networks, es)
    requires After(mem, networks, es).phase.Oper? && !After(mem, networks, es).phase.wait.AwaitGone?
    ensures SawNextWindow(mem, networks, es, gone, back)
    ensures After(mem, networks, es).phase.wait.Appeared? ==> back.Some?
  {
    hide Step;
    Front(mem, networks, es);
    var front, last := es[..|es| - 1], |es| - 1;
    var s := After(mem, networks, front);
    NextWaitStep(s, es[last]);
    if s.phase.wait.AwaitGone? {
      return last, None;
    }
    gone, back := NextWindowSeen(mem, networks, front);
    assert front[..gone] == es[..gone];
    if back.Some? {
      assert front[..back.value] == es[..back.value];
    }
    if After(mem, networks, es).phase.wait.Appeared? && !s.phase.wait.Appeared? {
      back := Some(last);
    }
    forall j | gone <= j < |es| ensures !es[j].OperUp? && !es[j].Decide? {
      if j < last {
        assert front[j] == es[j];
      }
    }
  }

  /** An operational phase that ends for the next window saw, during itself, no window of the
      device's own and later one. */
  lemma OperEndsOnNextWindow(mem: Memory, networks: Networks, es: seq<Event>) returns (gone: nat, back: nat)
    requires Possible(mem, networks, es + [OperEnds(NextWindow)])
    ensures SawNextWindow(mem, networks, es, gone, Some(back))
  {
    var all := es + [OperEnds(NextWindow)];
    Front(mem, networks, all);
    assert all[..|all| - 1] == es;
    PhaseEnds(After(mem, networks, es), NextWindow);
    var b;
    gone, b := NextWindowSeen(mem, networks, es);
    back := b.value;
  }

  /** The watchers of both phases see what there is to be seen, whatever kind of window it is that
      takes the place of one. */
  lemma WatchersSee(s: Sys)
    ensures s.phase.Ble? && s.phase.boxed ==>
              && (Step(s, SeesReady).Some? <==> s.shared.verdict.ProvReady())
              && (Step(s, SeesGone).Some? <==> !s.window.OnAllTransports())
              && (Step(s, SeesReady).Some? ==> Step(Step(s, SeesReady).value, BleEnds(ProvisioningReady)).Some?)
              && (Step(s, SeesGone).Some? ==> Step(Step(s, SeesGone).value, BleEnds(WindowGone)).Some?)
    ensures s.phase.Oper? && s.phase.wait.AwaitGone? ==> (Step(s, SeesGone).Some? <==> !s.window.OnAllTransports())
    ensures s.phase.Oper? && s.phase.wait.AwaitBack? ==>
              && (Step(s, SeesBack).Some? <==> s.window.OnAllTransports())
              && (Step(s, SeesBack).Some? ==> Step(Step(s, SeesBack).value, OperEnds(NextWindow)).Some?)
  {
  }

  /** After a BLE phase the connect replays a verdict of that very phase, and of the latest. */
  lemma ConnectAfterBleIsPending(mem: Memory, networks: Networks, es: seq<Event>)
    requires Possible(mem, networks, es + [OperUp])
    requires After(mem, networks, es + [OperUp]).phase.Connecting?
    ensures Possible(mem, networks, es)
    ensures After(mem, networks, es).phase == OperStarting(true) ==>
              exists i: nat :: Pending(mem, networks, es, i)
                               && es[i].v.networkId == After(mem, networks, es + [OperUp]).phase.id
  {
    var all := es + [OperUp];
    Front(mem, networks, all);
    assert all[..|all| - 1] == es;
    if After(mem, networks, es).phase == OperStarting(true) {
      var i := ReadyVerdictIsOfThisBle(mem, networks, es);
      StandingVerdict(mem, networks, es, i);
    }
  }

  /** The standing verdict is a ready one of the latest BLE phase: a commissioning is pending. */
  ghost predicate Pending(mem: Memory, networks: Networks, es: seq<Event>, i: nat) {
    ReadyInThisBle(mem, networks, es, i) && StandsSince(mem, networks, es, i)
  }

  /** Event `j` is a scan or connect outside any BLE phase, and there was no BLE phase since. */
  predicate WroteOutsideBle(mem: Memory, networks: Networks, es: seq<Event>, j: nat) {
    && j < |es| && Writes(es[j])
    && Possible(mem, networks, es[..j]) && !After(mem, networks, es[..j]).phase.Ble?
    && forall k :: j < k < |es| ==> !EntersBle(mem, networks, es, k)
  }

  /** Exactly when the one-shot connect is the deferred one of a pending commissioning: there was no
      scan or connect outside BLE since the latest BLE phase began, or since boot if there was none.
      Whether that phase directly precedes the connect does not matter. */
  lemma ConnectIsPendingExactlyIf(mem: Memory, networks: Networks, es: seq<Event>)
    requires Possible(mem, networks, es + [OperUp])
    requires After(mem, networks, es + [OperUp]).phase.Connecting?
    ensures (exists i: nat :: Pending(mem, networks, es, i)
                              && es[i].v.networkId == After(mem, networks, es + [OperUp]).phase.id)
            <==> !(exists j: nat :: WroteOutsideBle(mem, networks, es, j))
  {
    DeferredConnectIsFresh(mem, networks, es, After(mem, networks, es + [OperUp]).phase.id);
    if i: nat, j: nat :| Pending(mem, networks, es, i) && WroteOutsideBle(mem, networks, es, j) {
      PendingExcludesOutside(mem, networks, es, i, j);
    }
    if !(exists j: nat :: WroteOutsideBle(mem, networks, es, j)) {
      var i: nat :| StandsSince(mem, networks, es, i) && es[i].v.ProvReady()
                    && es[i].v.networkId == After(mem, networks, es + [OperUp]).phase.id;
      InsideIsPending(mem, networks, es, i);
    }
  }

  lemma PendingExcludesOutside(mem: Memory, networks: Networks, es: seq<Event>, i: nat, j: nat)
    requires Possible(mem, networks, es) && Pending(mem, networks, es, i)
    ensures !WroteOutsideBle(mem, networks, es, j)
  {
    if WroteOutsideBle(mem, networks, es, j) && j < i {
      var inBle := es[..i];
      forall k | j + 1 <= k < i ensures !EntersBle(mem, networks, inBle, k) {
        assert inBle[..k] == es[..k];
        assert !EntersBle(mem, networks, es, k);
      }
      BleSince(mem, networks, inBle, j + 1);
      assert inBle[..j + 1] == es[..j + 1] && es[..j + 1][..j] == es[..j];
      Front(mem, networks, es[..j + 1]);
      WritesInBle(After(mem, networks, es[..j]), es[j]);
    }
  }

  lemma InsideIsPending(mem: Memory, networks: Networks, es: seq<Event>, i: nat)
    requires Possible(mem, networks, es) && StandsSince(mem, networks, es, i) && es[i].v.ProvReady()
    requires !WroteOutsideBle(mem, networks, es, i)
    ensures Pending(mem, networks, es, i)
  {
    UpTo(mem, networks, es, i);
    UpTo(mem, networks, es, i + 1);
    assert es[..i + 1][..i] == es[..i];
    Front(mem, networks, es[..i + 1]);
    NoConnectInBle(After(mem, networks, es[..i]), es[i]);
  }

  lemma NoConnectInBle(s: Sys, e: Event)
    requires Writes(e) && Step(s, e).Some? && s.phase.Ble?
    ensures e.Verdict?
  {
  }

  /** But the source's remark that a ready verdict means a pending commissioning goes too far: on a
      device that never had a BLE phase, a network switch that succeeded in one operational phase
      makes the next one perform a "deferred" connect. */
  lemma ConnectWithoutBle(mem: Memory, networks: Networks, v: NetCtlState)
    requires mem.Valid() && mem.RootEnd().Some? && v.ProvReady()
    ensures var es := [Start, Decide, OperUp, ImStarts, ImReady, Verdict(v), OperEnds(OperTaskOk), Decide, OperUp];
            && Possible(mem, networks, es)
            && After(mem, networks, es).phase.Connecting?
            && After(mem, networks, es).bleWindows == []
  {
    var es := [Start, Decide, OperUp, ImStarts, ImReady, Verdict(v), OperEnds(OperTaskOk), Decide, OperUp];
    var up := OperatingFrom(mem, networks);
    TrailRuns(Step, [Boot(mem, networks)] + up, es[..5]);
    Replays(up[4], v);
    Join(Step, Boot(mem, networks), es[..5], es[5..]);
    assert es == es[..5] + es[5..];
  }

  /** From boot to a first operational phase that serves. */
  lemma OperatingFrom(mem: Memory, networks: Networks) returns (up: seq<Sys>)
    requires mem.Valid() && mem.RootEnd().Some?
    ensures Trail(Step, [Boot(mem, networks)] + up, [Start, Decide, OperUp, ImStarts, ImReady])
    ensures up[3].phase == Oper(Loading, AwaitGone) && up[3].shared.networks == networks
    ensures up[4].phase == Oper(Im.Serving, AwaitGone) && up[4].bleWindows == [] && up[4].window == Closed
  {
    hide Step;
    var s1, s2, s3 := ComesUp(mem, networks);
    var s4, s5 := Serves(s3);
    up := [s1, s2, s3, s4, s5];
  }

  lemma ComesUp(mem: Memory, networks: Networks) returns (s1: Sys, s2: Sys, s3: Sys)
    requires mem.Valid() && mem.RootEnd().Some?
    ensures Step(Boot(mem, networks), Start) == Some(s1) && Step(s1, Decide) == Some(s2) && Step(s2, OperUp) == Some(s3)
    ensures s3.phase == Oper(NotStarted, AwaitGone) && s3.bleWindows == [] && s3.window == Closed
    ensures !s3.shared.hydrated && s3.shared.networks == networks
  {
    s1 := Step(Boot(mem, networks), Start).value;
    s2 := s1.(phase := OperStarting(false));
    s3 := s1.(phase := Oper(NotStarted, AwaitGone));
  }

  lemma Serves(s: Sys) returns (s1: Sys, s2: Sys)
    requires s.phase == Oper(NotStarted, AwaitGone) && !s.shared.hydrated
    ensures Step(s, ImStarts) == Some(s1) && Step(s1, ImReady) == Some(s2)
    ensures s1 == s.(shared := s.shared.(hydrated := true), phase := Oper(Loading, AwaitGone))
    ensures s2 == s1.(phase := Oper(Im.Serving, AwaitGone))
  {
    s1 := Step(s, ImStarts).value;
    s2 := Step(s1, ImReady).value;
  }

  lemma Replays(s: Sys, v: NetCtlState)
    requires s.phase == Oper(Im.Serving, AwaitGone) && s.window == Closed && v.ProvReady()
    ensures var r := Exec(Step, s, [Verdict(v), OperEnds(OperTaskOk), Decide, OperUp]);
            r.Some? && r.value.phase.Connecting? && r.value.bleWindows == s.bleWindows
  {
    var wrote := s.Wrote(v);
    var ended := wrote.(phase := Deciding, operOk := true);
    TrailRuns(Step, [s, wrote, ended, ended.(phase := OperStarting(false)),
                     ended.(phase := Connecting(v.networkId, Get(s.shared.networks, v.networkId)))],
              [Verdict(v), OperEnds(OperTaskOk), Decide, OperUp]);
  }

  // ---------------------------------------------------------------------------------------
  // No bouncing between the radios

  /** The window of the latest BLE phase is over. */
  predicate Gone(s: Sys) {
    s.bleWindows == [] || !s.window.OnAllTransports() || s.serial != s.bleWindows[|s.bleWindows| - 1]
  }

  predicate Increasing(ns: seq<nat>) {
    forall i, j :: 0 <= i < j < |ns| ==> ns[i] < ns[j]
  }

  ghost predicate WindowInv(s: Sys) {
    && (forall n :: n in s.own ==> n <= s.serial)
    && (s.window.OnAllTransports() ==> s.serial in s.own)
    && (forall i :: 0 <= i < |s.bleWindows| ==> s.bleWindows[i] in s.own)
  }

  ghost predicate BounceInv(s: Sys) {
    && WindowInv(s)
    && (s.phase.Oper? && !s.phase.wait.AwaitGone? ==> Gone(s))
    && (s.phase.Deciding? && !s.operOk ==> Gone(s))
    && (!s.operOk ==> Increasing(s.bleWindows))
  }

  lemma StepKeepsWindowInv(s: Sys, e: Event)
    requires WindowInv(s) && Step(s, e).Some?
    ensures WindowInv(Step(s, e).value)
  {
  }

  /** How often the device opened a window for itself. */
  function OwnOpenings(es: seq<Event>): nat {
    if es == [] then 0 else
      OwnOpenings(es[..|es| - 1]) + if es[|es| - 1] == WindowOpens(None) then 1 else 0
  }

  lemma {:induction false} OwnAreCounted(mem: Memory, networks: Networks, es: seq<Event>)
    requires Possible(mem, networks, es)
    ensures |After(mem, networks, es).own| == OwnOpenings(es) && WindowInv(After(mem, networks, es))
  {
    if es != [] {
      hide Step;
      Front(mem, networks, es);
      var front := es[..|es| - 1];
      OwnAreCounted(mem, networks, front);
      StepKeepsWindowInv(After(mem, networks, front), es[|es| - 1]);
      OwnStep(After(mem, networks, front), es[|es| - 1]);
    }
  }

  lemma OwnStep(s: Sys, e: Event)
    requires WindowInv(s) && Step(s, e).Some?
    ensures |Step(s, e).value.own| == |s.own| + if e == WindowOpens(None) then 1 else 0
  {
  }

  lemma StepKeepsGone(s: Sys, e: Event)
    requires WindowInv(s) && Step(s, e).Some?
    requires Gone(s) && Step(s, e).value.bleWindows == s.bleWindows
    ensures Gone(Step(s, e).value)
  {
  }

  lemma GoneWhileOperating(s: Sys, e: Event)
    requires BounceInv(s) && Step(s, e).Some?
    ensures var s' := Step(s, e).value; s'.phase.Oper? && !s'.phase.wait.AwaitGone? ==> Gone(s')
  {
    if Gone(s) && Step(s, e).value.bleWindows == s.bleWindows {
      StepKeepsGone(s, e);
    }
  }

  lemma GoneWhileDeciding(s: Sys, e: Event)
    requires BounceInv(s) && Step(s, e).Some?
    ensures var s' := Step(s, e).value; s'.phase.Deciding? && !s'.operOk ==> Gone(s')
  {
    if Gone(s) && Step(s, e).value.bleWindows == s.bleWindows {
      StepKeepsGone(s, e);
    }
  }

  lemma StaysIncreasing(s: Sys, e: Event)
    requires BounceInv(s) && Step(s, e).Some?
    ensures var s' := Step(s, e).value; !s'.operOk ==> Increasing(s'.bleWindows)
  {
  }

  lemma StepKeepsBounceInv(s: Sys, e: Event)
    requires BounceInv(s) && Step(s, e).Some?
    ensures BounceInv(Step(s, e).value)
  {
    StepKeepsWindowInv(s, e);
    GoneWhileOperating(s, e);
    GoneWhileDeciding(s, e);
    StaysIncreasing(s, e);
  }

  lemma {:induction false} BounceInvHolds(mem: Memory, networks: Networks, es: seq<Event>)
    requires Possible(mem, networks, es)
    ensures BounceInv(After(mem, networks, es))
  {
    if es != [] {
      Front(mem, networks, es);
      BounceInvHolds(mem, networks, es[..|es| - 1]);
      StepKeepsBounceInv(After(mem, networks, es[..|es| - 1]), es[|es| - 1]);
    }
  }

  lemma {:induction false} IncreasingInSet(ns: seq<nat>, all: set<nat>)
    requires Increasing(ns) && forall i :: 0 <= i < |ns| ==> ns[i] in all
    ensures |ns| <= |all|
  {
    if ns != [] {
      var last := ns[|ns| - 1];
      var front := ns[..|ns| - 1];
      forall i | 0 <= i < |front| ensures front[i] in all - {last} {
        assert front[i] < last;
      }
      IncreasingInSet(front, all - {last});
    }
  }

  /** In a run whose operational phases end only through the window watcher (or with the run),
      every BLE phase has a window of its own, each later than the one before; so there are no
      more BLE phases than windows that the device opened for itself. */
  lemma NoRadioBouncing(mem: Memory, networks: Networks, es: seq<Event>)
    requires Possible(mem, networks, es)
    requires !After(mem, networks, es).operOk
    ensures var s := After(mem, networks, es);
            && Increasing(s.bleWindows)
            && (forall i :: 0 <= i < |s.bleWindows| ==> s.bleWindows[i] in s.own)
            && |s.bleWindows| <= |s.own| == OwnOpenings(es)
  {
    OwnAreCounted(mem, networks, es);
    BounceInvHolds(mem, networks, es);
    var s := After(mem, networks, es);
    IncreasingInSet(s.bleWindows, s.own);
  }

  predicate OnlyWindowEvents(es: seq<Event>) {
    forall i :: 0 <= i < |es| ==> es[i].WindowOpens? || es[i].WindowCloses?
  }

  /** What the window does between two phases matters only in that it may close. */
  lemma {:induction false} WindowMeanwhile(s: Sys, es: seq<Event>)
    requires Exec(Step, s, es).Some? && OnlyWindowEvents(es) && WindowInv(s) && s.bleWindows != []
    ensures var s' := Exec(Step, s, es).value;
            && WindowInv(s') && s'.phase == s.phase && s'.bleWindows == s.bleWindows
            && (Gone(s') <==> Gone(s) || WindowCloses in es)
  {
    if es != [] {
      var front, last := es[..|es| - 1], es[|es| - 1];
      assert es == front + [last];
      WindowMeanwhile(s, front);
      StepKeepsWindowInv(Exec(Step, s, front).value, last);
    }
  }

  /** Exactly when the next decision after an operational phase goes back to BLE for the window
      which the last BLE phase was for: the phase was ended by one of its own tasks returning
      without an error, and that window has been open all along, `meanwhile` included, in which
      the driver of the operational network winds up. */
  lemma BouncesExactlyIf(mem: Memory, networks: Networks, es: seq<Event>, cause: OperCause, meanwhile: seq<Event>)
    requires Possible(mem, networks, es + ([OperEnds(cause)] + meanwhile + [Decide]))
    requires OnlyWindowEvents(meanwhile)
    ensures Possible(mem, networks, es)
    ensures var s := After(mem, networks, es);
            var s2 := After(mem, networks, es + ([OperEnds(cause)] + meanwhile + [Decide]));
            (s.bleWindows != [] && s2.phase.Ble? &&
             s2.bleWindows[|s2.bleWindows| - 1] == s.bleWindows[|s.bleWindows| - 1])
            <==> cause.OperTaskOk? && !Gone(s) && WindowCloses !in meanwhile
  {
    hide Step;
    var boot, rest := Boot(mem, networks), [OperEnds(cause)] + meanwhile + [Decide];
    Join(Step, boot, es, rest);
    var s := After(mem, networks, es);
    FirstStep(Step, s, rest);
    assert rest[1..] == meanwhile + [Decide];
    PhaseEnds(s, cause);
    var ended := Step(s, OperEnds(cause)).value;
    Join(Step, ended, meanwhile, [Decide]);
    var deciding := Exec(Step, ended, meanwhile).value;
    FirstStep(Step, deciding, [Decide]);
    Decides(deciding);
    BounceInvHolds(mem, networks, es);
    if s.bleWindows != [] {
      StepKeepsWindowInv(s, OperEnds(cause));
      WindowMeanwhile(ended, meanwhile);
    }
  }

  lemma PhaseEnds(s: Sys, cause: OperCause)
    requires Step(s, OperEnds(cause)).Some?
    ensures var s' := Step(s, OperEnds(cause)).value;
            s'.bleWindows == s.bleWindows && s'.window == s.window && s'.serial == s.serial
    ensures s.phase.Oper? && (cause.NextWindow? ==> s.phase.wait.Appeared?)
  {
  }

  lemma Decides(s: Sys)
    requires Step(s, Decide).Some?
    ensures var s' := Step(s, Decide).value;
            && (s'.phase.Ble? <==> s.window.OnAllTransports())
            && (s'.phase.Ble? ==> s'.bleWindows == s.bleWindows + [s.serial])
  {
  }

  /** It does happen: a commissioner has handed over the credentials, the operational network is up
      and connected, and a task of the operational phase returns. The radio is back on BLE, for
      the window it has just left. */
  lemma WindowCanBounce(mem: Memory, networks: Networks, v: NetCtlState)
    requires mem.Valid() && mem.RootEnd().Some? && v.ProvReady()
    requires Bump1(mem.base, mem.cap, mem.RootEnd().value, mem.peripheral).Some?
    ensures var es := [WindowOpens(None), Start, Decide, BoxPeripheral, ImStarts, ImReady, Verdict(v), SeesReady,
                       BleEnds(ProvisioningReady), OperUp, ConnectEnds(v, true), OperEnds(OperTaskOk), Decide];
            && Possible(mem, networks, es)
            && After(mem, networks, es).phase.Ble?
            && After(mem, networks, es).bleWindows == [1, 1]
  {
    var es := [WindowOpens(None), Start, Decide, BoxPeripheral, ImStarts, ImReady, Verdict(v), SeesReady,
               BleEnds(ProvisioningReady), OperUp, ConnectEnds(v, true), OperEnds(OperTaskOk), Decide];
    hide Step;
    var boot := Boot(mem, networks);
    var ble := BleFrom(mem, networks);
    assert es[..4] == [WindowOpens(None), Start, Decide, BoxPeripheral];
    var ready := BecomesReady(ble, v);
    assert es[4..8] == [ImStarts, ImReady, Verdict(v), SeesReady];
    Join(Step, boot, es[..4], es[4..8]);
    var connecting := Connects(ready);
    assert es[8..10] == [BleEnds(ProvisioningReady), OperUp];
    Join(Step, boot, es[..8], es[8..10]);
    Bounces(connecting, v);
    assert es[10..] == [ConnectEnds(v, true), OperEnds(OperTaskOk), Decide];
    Join(Step, boot, es[..10], es[10..]);
    assert es[..4] + es[4..8] == es[..8] && es[..8] + es[8..10] == es[..10] && es[..10] + es[10..] == es;
  }

  /** From boot to a BLE phase with its peripheral boxed. */
  lemma BleFrom(mem: Memory, networks: Networks) returns (s: Sys)
    requires mem.Valid() && mem.RootEnd().Some?
    requires Bump1(mem.base, mem.cap, mem.RootEnd().value, mem.peripheral).Some?
    ensures Exec(Step, Boot(mem, networks), [WindowOpens(None), Start, Decide, BoxPeripheral]) == Some(s)
    ensures s.phase == Ble(NotStarted, true, false, false) && !s.shared.hydrated
    ensures s.window == Open(None) && s.bleWindows == [s.serial] == [1]
  {
    var s1 := FirstWindow(mem, networks);
    var s2 := Step(s1, Decide).value;
    s := Step(s2, BoxPeripheral).value;
    TrailRuns(Step, [s1, s2, s], [Decide, BoxPeripheral]);
    Join(Step, Boot(mem, networks), [WindowOpens(None), Start], [Decide, BoxPeripheral]);
    assert [WindowOpens(None), Start] + [Decide, BoxPeripheral] == [WindowOpens(None), Start, Decide, BoxPeripheral];
  }

  /** A run is started on a device that has just opened its first window. */
  lemma FirstWindow(mem: Memory, networks: Networks) returns (s: Sys)
    requires mem.Valid() && mem.RootEnd().Some?
    ensures Exec(Step, Boot(mem, networks), [WindowOpens(None), Start]) == Some(s)
    ensures s.mem == mem && s.phase == Deciding && s.window == Open(None) && s.serial == 1 && s.bleWindows == []
    ensures s.shared == Shared(false, networks, CLEARED) && s.skipped == 0 && !s.operOk
    ensures s.offset == mem.RootEnd().value
  {
    var boot := Boot(mem, networks);
    var s1 := Step(boot, WindowOpens(None)).value;
    s := Step(s1, Start).value;
    TrailRuns(Step, [boot, s1, s], [WindowOpens(None), Start]);
  }

  lemma BecomesReady(s: Sys, v: NetCtlState) returns (s': Sys)
    requires s.phase == Ble(NotStarted, true, false, false) && !s.shared.hydrated && v.ProvReady()
    ensures Exec(Step, s, [ImStarts, ImReady, Verdict(v), SeesReady]) == Some(s')
    ensures s' == s.(shared := Shared(true, s.shared.networks, v), phase := Ble(Im.Serving, true, true, false))
  {
    var s1 := s.(shared := s.shared.(hydrated := true), phase := Ble(Loading, true, false, false));
    var s2 := s1.(phase := Ble(Im.Serving, true, false, false));
    s' := s.(shared := Shared(true, s.shared.networks, v), phase := Ble(Im.Serving, true, true, false));
    TrailRuns(Step, [s, s1, s2, s2.Wrote(v), s'], [ImStarts, ImReady, Verdict(v), SeesReady]);
  }

  lemma Connects(s: Sys) returns (s': Sys)
    requires s.phase == Ble(Im.Serving, true, true, false) && s.shared.verdict.ProvReady()
    ensures Exec(Step, s, [BleEnds(ProvisioningReady), OperUp]) == Some(s')
    ensures s'.phase.Connecting? && s'.window == s.window && s'.serial == s.serial && s'.bleWindows == s.bleWindows
  {
    var s1 := Step(s, BleEnds(ProvisioningReady)).value;
    s' := Step(s1, OperUp).value;
    TrailRuns(Step, [s, s1, s'], [BleEnds(ProvisioningReady), OperUp]);
  }

  lemma Bounces(s: Sys, v: NetCtlState)
    requires s.phase.Connecting? && s.window == Open(None)
    ensures var r := Exec(Step, s, [ConnectEnds(v, true), OperEnds(OperTaskOk), Decide]);
            r.Some? && r.value.phase.Ble? && r.value.bleWindows == s.bleWindows + [s.serial]
  {
    hide Step;
    var s1, s2, s3 := ReturnsToBle(s, v);
    TrailRuns(Step, [s, s1, s2, s3], [ConnectEnds(v, true), OperEnds(OperTaskOk), Decide]);
  }

  lemma ReturnsToBle(s: Sys, v: NetCtlState) returns (s1: Sys, s2: Sys, s3: Sys)
    requires s.phase.Connecting? && s.window == Open(None)
    ensures Step(s, ConnectEnds(v, true)) == Some(s1) && Step(s1, OperEnds(OperTaskOk)) == Some(s2)
    ensures Step(s2, Decide) == Some(s3) && s3.phase.Ble? && s3.bleWindows == s.bleWindows + [s.serial]
  {
    s1 := Step(s, ConnectEnds(v, true)).value;
    s2 := Step(s1, OperEnds(OperTaskOk)).value;
    s3 := Step(s2, Decide).value;
  }

  // ---------------------------------------------------------------------------------------
  // What can always happen

  /** How far a run is from its next decision. */
  function ToDecision(p: Phase): nat {
    match p
    case Ble(_, _, _, _) => 4
    case OperStarting(_) => 3
    case Connecting(_, _) => 2
    case Oper(_, _) => 1
    case _ => 0
  }

  lemma DecisionStep(s: Sys) returns (e: Event)
    requires s.InRun() && !s.phase.Deciding?
    ensures (e == BleEnds(BleTaskOk) || e == OperUp || e == ConnectEnds(CLEARED, true) || e == OperEnds(OperTaskOk))
            && Step(s, e).Some?
    ensures var s' := Step(s, e).value;
            s'.InRun() && ToDecision(s'.phase) < ToDecision(s.phase) && s'.bleWindows == s.bleWindows
  {
    e := match s.phase
      case Ble(_, _, _, _) => BleEnds(BleTaskOk)
      case OperStarting(_) => OperUp
      case Connecting(_, _) => ConnectEnds(CLEARED, true)
      case _ => OperEnds(OperTaskOk);
  }

  /** A run never gets stuck: wherever it is, it can reach its next decision without being
      stopped. */
  lemma {:induction false} RunsCanGoOn(s: Sys) returns (es: seq<Event>)
    requires s.InRun()
    ensures Stops !in es && Start !in es && StartConcurrent !in es
    ensures var r := Exec(Step, s, es); r.Some? && r.value.phase.Deciding? && r.value.bleWindows == s.bleWindows
    decreases ToDecision(s.phase)
  {
    if s.phase.Deciding? {
      return [];
    }
    hide Step;
    var e := DecisionStep(s);
    var rest := RunsCanGoOn(Step(s, e).value);
    es := [e] + rest;
    FirstStep(Step, s, es);
    assert es[1..] == rest;
  }

  /** The model presumes nothing about its surroundings: windows open and close and runs are stopped
      at any time, startup loads and the commissioner commands whatever they like. */
  lemma SurroundingsAreFree(s: Sys, opener: Option<Fabric>)
    ensures Step(s, WindowOpens(opener)).Some? <==> s.window.Closed?
    ensures Step(s, WindowCloses).Some? <==> s.window.Open?
    ensures Step(s, Stops).Some? <==> !s.phase.Stopped?
    ensures Step(s, Stops).Some? ==> Step(s, Stops).value.phase.Stopped? && Step(s, Stops).value.offset == 0
    ensures Step(s, FactoryReset).Some? <==> s.phase.Stopped?
    ensures Step(s, StartConcurrent).Some? <==> s.phase.Stopped?
  {
  }

  lemma InteractionModelIsFree(s: Sys, loaded: Networks, id: NetworkId, c: Option<Creds>, v: NetCtlState)
    ensures s.ImIs(NotStarted) ==> Step(s, ImStarts).Some?
    ensures s.ImIs(Loading) ==> Step(s, ImLoads(loaded)).Some? && Step(s, ImReady).Some?
    ensures s.ImIs(Loading) ==> Step(s, ImReady).value.ImIs(Im.Serving)
    ensures s.ImIs(Im.Serving) ==> Step(s, Command(id, c)).Some? && Step(s, Verdict(v)).Some?
  {
  }

  /** A run starts if no other one is under way, and gets as far as a decision exactly if its root
      future fits. */
  lemma RunsStartExactlyIf(mem: Memory, networks: Networks, es: seq<Event>)
    requires Possible(mem, networks, es) && mem.Valid()
    ensures Possible(mem, networks, es + [Start]) <==> After(mem, networks, es).phase.Stopped?
    ensures Possible(mem, networks, es + [Start]) ==>
              After(mem, networks, es + [Start]).phase == (if mem.RootEnd().Some? then Deciding else Stopped)
  {
    assert (es + [Start])[..|es|] == es;
    MemoryInvHolds(mem, networks, es);
  }

  // ---------------------------------------------------------------------------------------
  // Memory

  ghost predicate MemoryInv(s: Sys) {
    && 0 <= s.Peripherals()
    && (!s.InRun() ==> s.offset == 0)
    && (s.InRun() ==>
          && s.mem.Valid() && s.mem.RootEnd().Some?
          && s.offset == AfterRepeat(s.mem.base, s.mem.RootEnd().value, s.mem.peripheral, s.Peripherals()) <= s.mem.cap)
  }

  lemma BoxingKeepsMemoryInv(s: Sys)
    requires MemoryInv(s) && Step(s, BoxPeripheral).Some?
    ensures MemoryInv(Step(s, BoxPeripheral).value)
  {
    AfterRepeatStep(s.mem.base, s.mem.cap, s.mem.RootEnd().value, s.mem.peripheral, s.Peripherals());
  }

  lemma StartKeepsMemoryInv(s: Sys)
    requires MemoryInv(s) && Step(s, Start).Some?
    ensures MemoryInv(Step(s, Start).value)
  {
  }

  lemma StepKeepsMemoryInv(s: Sys, e: Event)
    requires MemoryInv(s) && Step(s, e).Some?
    ensures MemoryInv(Step(s, e).value)
  {
    if e.BoxPeripheral? {
      BoxingKeepsMemoryInv(s);
    } else if e.Start? {
      StartKeepsMemoryInv(s);
    } else {
      hide AfterRepeat, Bump1;
      var s' := Step(s, e).value;
      assert s'.mem == s.mem && s'.InRun() ==> s'.Peripherals() == s.Peripherals();
    }
  }

  lemma StepKeepsMem(s: Sys, e: Event)
    requires Step(s, e).Some?
    ensures Step(s, e).value.mem == s.mem
  {
  }

  lemma {:induction false} MemoryInvHolds(mem: Memory, networks: Networks, es: seq<Event>)
    requires Possible(mem, networks, es)
    ensures MemoryInv(After(mem, networks, es)) && After(mem, networks, es).mem == mem
  {
    if es != [] {
      Front(mem, networks, es);
      MemoryInvHolds(mem, networks, es[..|es| - 1]);
      StepKeepsMemoryInv(After(mem, networks, es[..|es| - 1]), es[|es| - 1]);
      StepKeepsMem(After(mem, networks, es[..|es| - 1]), es[|es| - 1]);
    }
  }

  /** While a run lasts, the arena holds the root box, one leading pad, and the peripheral future of
      every BLE phase so far that has boxed it; nothing is given back between phases. No run has
      more such phases than the capacity. */
  lemma ArenaGrowthIsExact(mem: Memory, networks: Networks, es: seq<Event>)
    requires Possible(mem, networks, es) && After(mem, networks, es).InRun()
    ensures var s := After(mem, networks, es);
            var k := |s.bleWindows| - s.skipped - if s.Boxing() then 1 else 0;
            && mem.Valid() && mem.RootEnd().Some? && k >= 0
            && s.offset == AfterRepeat(mem.base, mem.RootEnd().value, mem.peripheral, k)
            && (mem.peripheral.size > 0 ==> k <= Slots(mem))
  {
    MemoryInvHolds(mem, networks, es);
    var s := After(mem, networks, es);
    if mem.peripheral.size > 0 {
      CapacityExact(mem.base, mem.cap, mem.RootEnd().value, mem.peripheral, s.Peripherals());
    }
  }

  /** How many peripheral futures fit behind the root box. */
  function Slots(mem: Memory): nat
    requires mem.Valid() && mem.RootEnd().Some? && mem.peripheral.size > 0
  {
    Capacity(mem.base, mem.cap, mem.RootEnd().value, mem.peripheral)
  }

  /** BLE phase number `k` of a run, not counting those that skipped their peripheral, panics when
      it boxes it exactly if `k - 1` futures are all that fit. */
  lemma PeripheralPanicsExactlyAt(mem: Memory, networks: Networks, es: seq<Event>)
    requires Possible(mem, networks, es + [BoxPeripheral])
    ensures Possible(mem, networks, es) && mem.Valid() && mem.RootEnd().Some?
    ensures var s, s' := After(mem, networks, es), After(mem, networks, es + [BoxPeripheral]);
            var k := |s.bleWindows| - s.skipped;
            && k >= 1
            && (s'.phase.Stopped? <==> mem.peripheral.size > 0 && k - 1 == Slots(mem))
            && (!s'.phase.Stopped? ==>
                  s'.offset == AfterRepeat(mem.base, mem.RootEnd().value, mem.peripheral, k))
  {
    hide Step, MemoryInv;
    var all := es + [BoxPeripheral];
    Front(mem, networks, all);
    assert all[..|all| - 1] == es;
    MemoryInvHolds(mem, networks, es);
    BoxingPanicsExactlyAt(After(mem, networks, es));
  }

  lemma BoxingPanicsExactlyAt(s: Sys)
    requires MemoryInv(s) && Step(s, BoxPeripheral).Some?
    ensures s.mem.Valid() && s.mem.RootEnd().Some? && s.Boxing()
    ensures var s', k := Step(s, BoxPeripheral).value, |s.bleWindows| - s.skipped;
            && k >= 1
            && (s'.phase.Stopped? <==> s.mem.peripheral.size > 0 && k - 1 == Slots(s.mem))
            && (!s'.phase.Stopped? ==>
                  s'.offset == AfterRepeat(s.mem.base, s.mem.RootEnd().value, s.mem.peripheral, k))
  {
    var k := s.Peripherals();
    AfterRepeatStep(s.mem.base, s.mem.cap, s.mem.RootEnd().value, s.mem.peripheral, k);
    if s.mem.peripheral.size > 0 {
      CapacityExact(s.mem.base, s.mem.cap, s.mem.RootEnd().value, s.mem.peripheral, k);
      CapacityExact(s.mem.base, s.mem.cap, s.mem.RootEnd().value, s.mem.peripheral, k + 1);
    }
  }

  // One round of the loop, without bouncing: BLE for the present window until it closes, then the
  // operational network until the next one opens.
  const BLE_ROUND := [Decide, BoxPeripheral, WindowCloses, SeesGone, BleEnds(WindowGone)]
  const OPER_ROUND := [OperUp, SeesGone, WindowOpens(None), SeesBack, OperEnds(NextWindow)]

  /** After `k` BLE phases in a run without mishaps. */
  predicate Smooth(s: Sys, mem: Memory, k: nat) {
    s.mem == mem && |s.bleWindows| == k && s.skipped == 0 && !s.operOk
  }

  /** At the head of the loop, with a window to serve. */
  predicate AtHead(s: Sys, mem: Memory, k: nat) {
    Smooth(s, mem, k) && s.phase.Deciding? && s.window == Open(None)
  }

  predicate AfterBle(s: Sys, mem: Memory, k: nat) {
    Smooth(s, mem, k) && s.phase == OperStarting(true) && s.window == Closed && s.shared.verdict == CLEARED
  }

  lemma BleRound(s: Sys, mem: Memory, k: nat)
    requires MemoryInv(s) && AtHead(s, mem, k)
    requires AfterRepeat(mem.base, mem.RootEnd().value, mem.peripheral, k + 1) <= mem.cap
    ensures Exec(Step, s, BLE_ROUND).Some? && AfterBle(Exec(Step, s, BLE_ROUND).value, mem, k + 1)
  {
    AfterRepeatStep(mem.base, mem.cap, mem.RootEnd().value, mem.peripheral, k);
    hide AfterRepeat;
    var s1 := Step(s, Decide).value;
    var s2 := Step(s1, BoxPeripheral).value;
    var s3 := s2.(window := Closed);
    var s4 := s3.(phase := s3.phase.(gone := true));
    TrailRuns(Step, [s, s1, s2, s3, s4, s4.(phase := OperStarting(true))], BLE_ROUND);
  }

  lemma OperRound(s: Sys, mem: Memory, k: nat)
    requires AfterBle(s, mem, k)
    ensures Exec(Step, s, OPER_ROUND).Some? && AtHead(Exec(Step, s, OPER_ROUND).value, mem, k)
  {
    var s1 := s.(phase := Oper(NotStarted, AwaitGone));
    var s2 := s1.(phase := Oper(NotStarted, AwaitBack));
    var s3 := Step(s2, WindowOpens(None)).value;
    var s4 := s3.(phase := Oper(NotStarted, Appeared));
    TrailRuns(Step, [s, s1, s2, s3, s4, s4.(phase := Deciding)], OPER_ROUND);
  }

  lemma {:induction false} Rounds(mem: Memory, networks: Networks, k: nat) returns (es: seq<Event>)
    requires mem.Valid() && mem.RootEnd().Some?
    requires AfterRepeat(mem.base, mem.RootEnd().value, mem.peripheral, k) <= mem.cap
    ensures Possible(mem, networks, es) && AtHead(After(mem, networks, es), mem, k)
  {
    hide Step, AfterRepeat, MemoryInv;
    if k == 0 {
      es := [WindowOpens(None), Start];
      var head := FirstWindow(mem, networks);
    } else {
      AfterRepeatGrows(mem.base, mem.RootEnd().value, mem.peripheral, k - 1, k);
      var before := Rounds(mem, networks, k - 1);
      MemoryInvHolds(mem, networks, before);
      var head := After(mem, networks, before);
      BleRound(head, mem, k - 1);
      OperRound(Exec(Step, head, BLE_ROUND).value, mem, k);
      Join(Step, head, BLE_ROUND, OPER_ROUND);
      Join(Step, Boot(mem, networks), before, BLE_ROUND + OPER_ROUND);
      es := before + (BLE_ROUND + OPER_ROUND);
    }
  }

  /** A run that goes through `k` BLE phases, each with its own window and its peripheral boxed. */
  ghost predicate MakesPhases(mem: Memory, networks: Networks, es: seq<Event>, k: nat) {
    && Possible(mem, networks, es) && After(mem, networks, es).InRun() && !After(mem, networks, es).operOk
    && After(mem, networks, es).skipped == 0 && !After(mem, networks, es).Boxing()
    && |After(mem, networks, es).bleWindows| == k
  }

  /** The exact number of BLE phases a run can make. */
  lemma PhasesPossibleIffTheyFit(mem: Memory, networks: Networks, k: nat)
    requires mem.Valid() && mem.RootEnd().Some? && mem.peripheral.size > 0
    ensures (exists es :: MakesPhases(mem, networks, es, k)) <==> k <= Slots(mem)
  {
    CapacityExact(mem.base, mem.cap, mem.RootEnd().value, mem.peripheral, k);
    if k <= Slots(mem) {
      var es := Rounds(mem, networks, k);
      assert MakesPhases(mem, networks, es, k);
    }
    if es :| MakesPhases(mem, networks, es, k) {
      ArenaGrowthIsExact(mem, networks, es);
    }
  }

  /** Both together: an arena with room for as many peripheral futures as windows were opened
      never fails a run that does not bounce. */
  lemma WindowsBoundMemory(mem: Memory, networks: Networks, es: seq<Event>)
    requires Possible(mem, networks, es + [BoxPeripheral]) && mem.peripheral.size > 0
    requires Possible(mem, networks, es) && !After(mem, networks, es).operOk
    requires mem.Valid() && mem.RootEnd().Some?
    requires |After(mem, networks, es).own| <= Slots(mem)
    ensures !After(mem, networks, es + [BoxPeripheral]).phase.Stopped?
  {
    PeripheralPanicsExactlyAt(mem, networks, es);
    NoRadioBouncing(mem, networks, es);
  }
}
