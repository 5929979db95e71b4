/** Waiting for the commissioning window, and running BLE only while the window is ours. */
module CommWindow {
  import opened Options
  import opened Lts

  type Fabric = nat

  /** The state of the commissioning window. A window without an opener is one that the device
      opened for itself; it is advertised on all transports, BLE among them. */
  datatype Window = Closed | Open(opener: Option<Fabric>) {
    predicate OnAllTransports() {
      Open? && opener.None?
    }
  }

  // ---------------------------------------------------------------------------------------
  // wait_comm_window

  /** A task inside `wait_comm_window`. A subscription remembers how much of the history there was
      when it was made; it is signalled by every later change. */
  datatype WatchPc =
    | Idle
    | Subscribed(since: nat)
    | HasRead(since: nat, state: Window)
    | Parked(since: nat)
    | Resolved(state: Window)

  /** One watcher and the window it watches: all states so far, the current one last. */
  datatype Watching = Watching(until: Window -> bool, history: seq<Window>, calledAt: nat, pc: WatchPc) {
    predicate Valid() {
      |history| > 0
    }

    function Current(): Window
      requires Valid()
    {
      history[|history| - 1]
    }

    /** Parked, and no change since the subscription: nothing is going to wake it up. */
    predicate Asleep() {
      pc.Parked? && pc.since == |history|
    }
  }

  datatype WatchEvent = Change(to: Window) | Subscribe | ReadState | Test | Wake

  /** Subscribe, then read, then test; park if the state is not the awaited one; start over when
      the subscription fires. Changes may come between any two of these. */
  function WatchStep(w: Watching, e: WatchEvent): Option<Watching> {
    match e
    case Change(to) => Some(w.(history := w.history + [to]))
    case Subscribe =>
      if w.pc.Idle? then Some(w.(pc := Subscribed(|w.history|))) else None
    case ReadState =>
      if w.pc.Subscribed? && w.Valid() then Some(w.(pc := HasRead(w.pc.since, w.Current()))) else None
    case Test =>
      if w.pc.HasRead? then
        Some(w.(pc := if w.until(w.pc.state) then Resolved(w.pc.state) else Parked(w.pc.since)))
      else None
    case Wake =>
      if w.pc.Parked? && |w.history| > w.pc.since then Some(w.(pc := Idle)) else None
  }

  function StartWatch(until: Window -> bool, history: seq<Window>): Watching
    requires |history| > 0
  {
    Watching(until, history, |history| - 1, Idle)
  }

  /** The windows there were at some moment since the call. */
  predicate Held(w: Watching, state: Window) {
    w.calledAt <= |w.history| && state in w.history[w.calledAt..]
  }

  ghost predicate WatchInv(w: Watching) {
    && w.Valid() && w.calledAt < |w.history|
    && (match w.pc
        case Idle => true
        case Subscribed(since) => since <= |w.history|
        case HasRead(since, state) =>
          since <= |w.history| && Held(w, state) && (since == |w.history| ==> state == w.Current())
        case Parked(since) =>
          since <= |w.history| && (since == |w.history| ==> !w.until(w.Current()))
        case Resolved(state) => w.until(state) && Held(w, state))
  }

  lemma WatchStepKeepsInv(w: Watching, e: WatchEvent)
    requires WatchInv(w) && WatchStep(w, e).Some?
    ensures WatchInv(WatchStep(w, e).value)
  {
    if e.Change? {
      var w' := WatchStep(w, e).value;
      assert w'.history[w.calledAt..] == w.history[w.calledAt..] + [e.to];
    } else if e.ReadState? {
      assert w.Current() == w.history[w.calledAt..][|w.history| - 1 - w.calledAt];
    }
  }

  lemma {:induction false} WatchInvHolds(w0: Watching, es: seq<WatchEvent>)
    requires WatchInv(w0) && Exec(WatchStep, w0, es).Some?
    ensures WatchInv(Exec(WatchStep, w0, es).value)
  {
    if es != [] {
      WatchInvHolds(w0, es[..|es| - 1]);
      WatchStepKeepsInv(Exec(WatchStep, w0, es[..|es| - 1]).value, es[|es| - 1]);
    }
  }

  /** No wakeup is lost: in every interleaving with every sequence of changes, a watcher that
      sleeps on with no signal pending is right to, the current state not being the awaited one.
      And what a watcher returns satisfies its predicate and was true at some moment of the call. */
  lemma NoLostWakeup(until: Window -> bool, history: seq<Window>, es: seq<WatchEvent>)
    requires |history| > 0
    requires Exec(WatchStep, StartWatch(until, history), es).Some?
    ensures var w := Exec(WatchStep, StartWatch(until, history), es).value;
            && w.Valid()
            && (w.Asleep() ==> !until(w.Current()))
            && (w.Asleep() ==> forall e: WatchEvent :: !e.Change? ==> WatchStep(w, e).None?)
            && (w.pc.Resolved? ==> until(w.pc.state) && Held(w, w.pc.state))
  {
    UntilIsFixed(StartWatch(until, history), es);
    WatchInvHolds(StartWatch(until, history), es);
  }

  lemma {:induction false} UntilIsFixed(w0: Watching, es: seq<WatchEvent>)
    requires Exec(WatchStep, w0, es).Some?
    ensures Exec(WatchStep, w0, es).value.until == w0.until
    ensures Exec(WatchStep, w0, es).value.calledAt == w0.calledAt
  {
    if es != [] {
      UntilIsFixed(w0, es[..|es| - 1]);
    }
  }

  /** The same watcher with the two first steps the other way round. */
  function SwappedStep(w: Watching, e: WatchEvent): Option<Watching> {
    match e
    case ReadState =>
      if w.pc.Idle? && w.Valid() then Some(w.(pc := HasRead(0, w.Current()))) else None
    case Subscribe =>
      if w.pc.HasRead? then Some(w.(pc := HasRead(|w.history|, w.pc.state))) else None
    case _ => WatchStep(w, e)
  }

  /** Read first and subscribe afterwards, and a change in between leaves the watcher asleep over
      exactly the state it waits for, whatever it waits for. */
  lemma SwappedWatcherOversleeps(until: Window -> bool, before: Window, awaited: Window)
    requires !until(before) && until(awaited)
    ensures var w := Exec(SwappedStep, StartWatch(until, [before]), [ReadState, Change(awaited), Subscribe, Test]);
            w.Some? && w.value.Valid() && w.value.Asleep() && until(w.value.Current())
  {
    var w0 := StartWatch(until, [before]);
    var es := [ReadState, Change(awaited), Subscribe, Test];
    assert es[..3][..2] == es[..2] && es[..2][..1] == es[..1] && es[..1][..0] == [];
    assert Exec(SwappedStep, w0, es[..1]) == SwappedStep(w0, ReadState);
    assert Exec(SwappedStep, w0, es[..2]).value.history == [before, awaited];
  }

  /** How far a watcher is from being settled, if nothing changes any more. */
  function ToSettle(w: Watching): nat {
    match w.pc
    case Idle => 3
    case Subscribed(since) => if since == |w.history| then 2 else 6
    case HasRead(since, _) => if since == |w.history| then 1 else 5
    case Parked(since) => if since == |w.history| then 0 else 4
    case Resolved(_) => 0
  }

  /** A watcher is never stuck: once nothing changes any more it goes on, of itself, until it has
      resolved or sleeps; and it resolves if it waits for what is there now. */
  lemma {:induction false} WatcherSettles(w: Watching) returns (es: seq<WatchEvent>)
    requires WatchInv(w)
    ensures forall i :: 0 <= i < |es| ==> !es[i].Change?
    ensures var r := Exec(WatchStep, w, es);
            && r.Some? && r.value.Valid() && r.value.history == w.history
            && (if r.value.pc.Resolved? then w.until(r.value.pc.state) else r.value.Asleep() && !w.until(w.Current()))
    decreases ToSettle(w)
  {
    if w.pc.Resolved? || w.Asleep() {
      return [];
    }
    var e := match w.pc
      case Idle => Subscribe
      case Subscribed(_) => ReadState
      case HasRead(_, _) => Test
      case _ => Wake;
    WatchStepKeepsInv(w, e);
    var rest := WatcherSettles(WatchStep(w, e).value);
    es := [e] + rest;
    FirstStep(WatchStep, w, es);
    assert es[1..] == rest;
  }

  /** What happens from step `from` up to step `to`. */
  function Between(changes: nat -> seq<Window>, from: nat, to: nat): seq<Window>
    requires from <= to
  {
    if from == to then [] else Between(changes, from, to - 1) + changes(to - 1)
  }

  lemma Lived(history: seq<Window>, changes: nat -> seq<Window>, a: nat, b: nat, c: nat)
    requires a <= b <= c
    ensures history + Between(changes, a, b) + Between(changes, b, c) == history + Between(changes, a, c)
  {
    BetweenJoins(changes, a, b, c);
  }

  lemma {:induction false} BetweenJoins(changes: nat -> seq<Window>, a: nat, b: nat, c: nat)
    requires a <= b <= c
    ensures Between(changes, a, c) == Between(changes, a, b) + Between(changes, b, c)
  {
    if b < c {
      BetweenJoins(changes, a, b, c - 1);
    }
  }

  /** The loop of `wait_comm_window`. `changes(n)` are the changes that happen before its n-th
      step, counted from `from`; `steps` bounds how long the surroundings go on, after which a parked
      watcher stays parked. Every run of the loop is a run of the watcher above, so `NoLostWakeup`
      is about it. It returns a state, having lived through the changes up to step `n`; or it is
      asleep when the surroundings come to rest, having lived through them all. */
  method WaitCommWindow(until: Window -> bool, start: seq<Window>, changes: nat -> seq<Window>, from: nat, steps: nat)
    returns (r: Option<Window>, history: seq<Window>, n: nat, trace: seq<WatchEvent>, ghost w: Watching)
    requires |start| > 0 && from <= steps
    ensures from <= n <= steps && history == start + Between(changes, from, n)
    ensures r.None? ==> n == steps
    ensures Exec(WatchStep, StartWatch(until, start), trace) == Some(w)
    ensures w.history == history
    ensures if r.Some? then w.pc == Resolved(r.value) else w.Asleep()
    ensures r.Some? ==> until(r.value) && r.value in history[|start| - 1..]
    ensures r.None? ==> !until(history[|history| - 1])
  {
    ghost var w0 := StartWatch(until, start);
    assert Exec(WatchStep, w0, []) == Some(w0) && Between(changes, from, from) == [];
    hide Exec, Between, WatchStep;
    w := w0;
    history, trace, r := start, [], None;
    n := from;
    while true
      invariant from <= n <= steps && history == start + Between(changes, from, n)
      invariant w == Watching(until, history, |start| - 1, Idle) && Exec(WatchStep, w0, trace) == Some(w)
      decreases steps - n
    {
      var since, state, n1, n2;
      history, trace, since, state, n1, w := SubscribeReadTest(w0, w, trace, history, changes, n, steps);
      Lived(start, changes, from, n, n1);
      if until(state) {
        Outcome(until, start, trace, w);
        return Some(state), history, n1, trace, w;
      }

      history, trace, n2, w := Park(w0, w, trace, history, changes, since, n1, steps);
      Lived(start, changes, from, n1, n2);
      if |history| == since {
        Outcome(until, start, trace, w);
        return None, history, n2, trace, w;
      }
      Wakes(w, since);
      trace, w := Take(w0, w, trace, Wake);
      n := n2;
    }
  }

  lemma Wakes(w: Watching, since: nat)
    requires w.pc == Parked(since) && |w.history| > since
    ensures WatchStep(w, Wake) == Some(w.(pc := Idle))
  {
  }

  lemma Outcome(until: Window -> bool, start: seq<Window>, trace: seq<WatchEvent>, w: Watching)
    requires |start| > 0 && Exec(WatchStep, StartWatch(until, start), trace) == Some(w)
    ensures w.Valid() && |start| - 1 <= |w.history|
    ensures w.Asleep() ==> !until(w.history[|w.history| - 1])
    ensures w.pc.Resolved? ==> until(w.pc.state) && w.pc.state in w.history[|start| - 1..]
  {
    NoLostWakeup(until, start, trace);
    UntilIsFixed(StartWatch(until, start), trace);
    WatchInvHolds(StartWatch(until, start), trace);
  }

  method SubscribeAndRead(ghost w0: Watching, ghost w: Watching, trace: seq<WatchEvent>, history: seq<Window>,
                          changes: nat -> seq<Window>, n: nat, steps: nat)
    returns (history': seq<Window>, trace': seq<WatchEvent>, since: nat, n': nat, ghost w': Watching)
    requires w.pc == Idle && |history| > 0 && n <= steps
    requires Exec(WatchStep, w0, trace) == Some(w) && w.history == history
    ensures n <= n' <= steps && history' == history + Between(changes, n, n')
    ensures |history| <= since <= |history'| && (since < |history'| ==> n < n')
    ensures w' == w.(history := history', pc := HasRead(since, history'[|history'| - 1]))
    ensures Exec(WatchStep, w0, trace') == Some(w')
  {
    hide Exec, Between;
    var n1;
    history', trace', n1, w' := Surroundings(w0, w, trace, history, changes, n, steps);
    trace', w' := Take(w0, w', trace', Subscribe);
    since := |history'|;
    history', trace', n', w' := Surroundings(w0, w', trace', history', changes, n1, steps);
    trace', w' := Take(w0, w', trace', ReadState);
    Lived(history, changes, n, n1, n');
  }

  method SubscribeReadTest(ghost w0: Watching, ghost w: Watching, trace: seq<WatchEvent>, history: seq<Window>,
                           changes: nat -> seq<Window>, n: nat, steps: nat)
    returns (history': seq<Window>, trace': seq<WatchEvent>, since: nat, state: Window, n': nat, ghost w': Watching)
    requires w.pc == Idle && |history| > 0 && n <= steps
    requires Exec(WatchStep, w0, trace) == Some(w) && w.history == history
    ensures n <= n' <= steps && history' == history + Between(changes, n, n')
    ensures |history| <= since <= |history'| && (since < |history'| ==> n < n')
    ensures w' == w.(history := history', pc := if w.until(state) then Resolved(state) else Parked(since))
    ensures Exec(WatchStep, w0, trace') == Some(w')
  {
    hide Exec, Between;
    var n1;
    history', trace', since, n1, w' := SubscribeAndRead(w0, w, trace, history, changes, n, steps);
    state := history'[|history'| - 1];
    history', trace', n', w' := Surroundings(w0, w', trace', history', changes, n1, steps);
    trace', w' := Take(w0, w', trace', Test);
    Lived(history, changes, n, n1, n');
  }

  /** Await the subscription; with nothing left to happen this lasts for ever. */
  method Park(ghost w0: Watching, ghost w: Watching, trace: seq<WatchEvent>, history: seq<Window>,
              changes: nat -> seq<Window>, since: nat, n: nat, steps: nat)
    returns (history': seq<Window>, trace': seq<WatchEvent>, n': nat, ghost w': Watching)
    requires since <= |history| && w.pc == Parked(since) && n <= steps
    requires Exec(WatchStep, w0, trace) == Some(w) && w.history == history
    ensures n <= n' <= steps && history' == history + Between(changes, n, n')
    ensures |history'| == since ==> n' == steps
    ensures w' == w.(history := history') && Exec(WatchStep, w0, trace') == Some(w')
  {
    history', trace', n', w' := history, trace, n, w;
    while |history'| == since && n' < steps
      invariant n <= n' <= steps && history' == history + Between(changes, n, n')
      invariant w' == w.(history := history') && Exec(WatchStep, w0, trace') == Some(w')
    {
      ghost var before := n';
      history', trace', n', w' := Surroundings(w0, w', trace', history', changes, n', steps);
      Lived(history, changes, n, before, n');
    }
  }

  /** One step of the watcher, which `w0` and `trace` brought to `w`. */
  method Take(ghost w0: Watching, ghost w: Watching, trace: seq<WatchEvent>, e: WatchEvent)
    returns (trace': seq<WatchEvent>, ghost w': Watching)
    requires Exec(WatchStep, w0, trace) == Some(w) && WatchStep(w, e).Some?
    ensures trace' == trace + [e]
    ensures Some(w') == WatchStep(w, e) == Exec(WatchStep, w0, trace')
  {
    trace' := trace + [e];
    assert trace'[..|trace|] == trace;
    w' := WatchStep(w, e).value;
  }

  /** The changes that happen before step `n`; none once the surroundings have come to rest. */
  method Surroundings(ghost w0: Watching, ghost w: Watching, trace: seq<WatchEvent>, history: seq<Window>,
                      changes: nat -> seq<Window>, n: nat, steps: nat)
    returns (history': seq<Window>, trace': seq<WatchEvent>, n': nat, ghost w': Watching)
    requires Exec(WatchStep, w0, trace) == Some(w) && w.history == history && n <= steps
    ensures n' == (if n < steps then n + 1 else n) && history' == history + Between(changes, n, n')
    ensures w' == w.(history := history') && Exec(WatchStep, w0, trace') == Some(w')
  {
    history', trace', n', w' := history, trace, n, w;
    if n < steps {
      var now := changes(n);
      for i := 0 to |now|
        invariant history' == history + now[..i]
        invariant w' == w.(history := history') && Exec(WatchStep, w0, trace') == Some(w')
      {
        trace', w' := Take(w0, w', trace', Change(now[i]));
        history' := history' + [now[i]];
        assert now[..i + 1] == now[..i] + [now[i]];
      }
      n' := n + 1;
      assert Between(changes, n, n') == Between(changes, n, n) + changes(n) == now;
    }
  }

  /** How far `wait_next_comm_window` got. */
  datatype NextWait = AwaitGone | AwaitBack | Appeared

  /** `wait_next_comm_window`: let the current all-transport window go away, then wait for one.
      It resolves only after the window was seen not to be one (at `gone`) and later to be one
      (at `back`); if it sleeps when the surroundings come to rest, the window is still the one it is
      waiting to go, or it went and none is there now. */
  method WaitNextCommWindow(start: seq<Window>, changes: nat -> seq<Window>, steps: nat)
    returns (r: NextWait, history: seq<Window>, n: nat, ghost gone: nat, ghost back: nat)
    requires |start| > 0
    ensures n <= steps && history == start + Between(changes, 0, n)
    ensures !r.Appeared? ==> n == steps
    ensures r.AwaitGone? ==> history[|history| - 1].OnAllTransports()
    ensures !r.AwaitGone? ==> |start| - 1 <= gone < |history| && !history[gone].OnAllTransports()
    ensures r.AwaitBack? ==> !history[|history| - 1].OnAllTransports()
    ensures r.Appeared? ==> gone < back < |history| && history[back].OnAllTransports()
  {
    r, gone, back := AwaitGone, 0, 0;
    var state;
    state, history, n, gone := Await((w: Window) => !w.OnAllTransports(), start, changes, 0, steps);
    if state.None? {
      return;
    }
    ghost var before, from := history, n;
    state, history, n, back := Await((w: Window) => w.OnAllTransports(), history, changes, n, steps);
    Lived(start, changes, 0, from, n);
    assert history[gone] == before[gone];
    r := if state.Some? then Appeared else AwaitBack;
  }

  /** `WaitCommWindow` without the trace, and with the moment at which the state returned was read. */
  method Await(until: Window -> bool, start: seq<Window>, changes: nat -> seq<Window>, from: nat, steps: nat)
    returns (r: Option<Window>, history: seq<Window>, n: nat, ghost at: nat)
    requires |start| > 0 && from <= steps
    ensures from <= n <= steps && history == start + Between(changes, from, n)
    ensures r.Some? ==> until(r.value) && |start| - 1 <= at < |history| && history[at] == r.value
    ensures r.None? ==> n == steps && !until(history[|history| - 1])
  {
    at := 0;
    var trace;
    ghost var w;
    r, history, n, trace, w := WaitCommWindow(until, start, changes, from, steps);
    if r.Some? {
      ghost var since := history[|start| - 1..];
      ghost var k :| 0 <= k < |since| && since[k] == r.value;
      at := |start| - 1 + k;
    }
  }

  // ---------------------------------------------------------------------------------------
  // run_gatt_while_ble_commissionable

  /** Where the loop is: waiting for a window; waiting for one that was opened over CASE to close;
      running the peripheral for one of the device's own until that closes. The last two remember
      the state that led there, and at which moment of the history it was read. */
  datatype GateSite = WaitOpen | WaitCaseClosed(seen: Window, at: nat) | Advertising(seen: Window, at: nat) | Failed {
    function Until(): Window -> bool {
      if WaitOpen? then (w: Window) => w.Open? else (w: Window) => !w.Open?
    }
  }

  /** `readAt` is the moment of the latest read. */
  datatype Gate = Gate(history: seq<Window>, pc: WatchPc, site: GateSite, readAt: nat) {
    predicate Valid() {
      |history| > 0
    }

    function Current(): Window
      requires Valid()
    {
      history[|history| - 1]
    }

    function Watch(): Watching {
      Watching(site.Until(), history, 0, pc)
    }

    /** Parked with no pending change. */
    predicate Asleep() {
      !site.Failed? && Watch().Asleep()
    }
  }

  datatype GateEvent = Of(e: WatchEvent) | PeripheralEnds(ok: bool)

  function GateStep(g: Gate, ge: GateEvent): Option<Gate> {
    match ge
    case PeripheralEnds(ok) =>
      if g.site.Advertising? then Some(g.(site := if ok then WaitOpen else Failed, pc := Idle)) else None
    case Of(e) =>
      if !g.Valid() || g.site.Failed? then None
      // The opener does not change while the window is open
      else if e.Change? && g.Current().Open? && e.to.Open? && e.to != g.Current() then None
      else
        var w := WatchStep(g.Watch(), e);
        if w.None? then None
        else
          var g' := g.(history := w.value.history, pc := w.value.pc);
          if e.ReadState? then Some(g'.(readAt := |g.history| - 1))
          else if w.value.pc.Resolved? then
            // The state read decides what the loop does next
            var state := w.value.pc.state;
            var next := if !g.site.WaitOpen? then WaitOpen
                        else if state.OnAllTransports() then Advertising(state, g.readAt)
                        else WaitCaseClosed(state, g.readAt);
            Some(g'.(site := next, pc := Idle))
          else Some(g')
  }

  function StartGate(initial: Window): Gate {
    Gate([initial], Idle, WaitOpen, 0)
  }

  /** The loop has read `state` at moment `at`; and as a window is replaced by another only through
      being closed, it is still there if there was no closing since. */
  predicate Read(g: Gate, state: Window, at: nat) {
    && at < |g.history| && g.history[at] == state
    && (state.Open? && Closed !in g.history[at..] ==> g.history[|g.history| - 1] == state)
  }

  /** `state` was the state of the window at the subscription `since` or later. */
  predicate ReadSince(g: Gate, since: nat, state: Window) {
    1 <= since <= |g.history| && state in g.history[since - 1..]
  }

  ghost predicate GateInv(g: Gate) {
    && g.Valid()
    && !g.pc.Resolved?
    && (g.pc.Parked? ==> g.pc.since <= |g.history| && (g.Asleep() ==> !g.site.Until()(g.Current())))
    && (g.pc.HasRead? ==>
          && ReadSince(g, g.pc.since, g.pc.state) && Read(g, g.pc.state, g.readAt)
          && (g.pc.since == |g.history| ==> g.pc.state == g.Current()))
    && (g.pc.Subscribed? ==> 1 <= g.pc.since <= |g.history|)
    && (g.site.Advertising? ==> g.site.seen.OnAllTransports())
    && (g.site.WaitCaseClosed? ==> g.site.seen.Open? && !g.site.seen.OnAllTransports())
    && (g.site.Advertising? || g.site.WaitCaseClosed? ==> Read(g, g.site.seen, g.site.at))
  }

  lemma ReadStands(g: Gate, to: Window, state: Window, at: nat)
    requires g.Valid() && Read(g, state, at) && GateStep(g, Of(Change(to))).Some?
    ensures Read(GateStep(g, Of(Change(to))).value, state, at)
  {
    assert GateStep(g, Of(Change(to))).value.history[at..] == g.history[at..] + [to];
  }

  lemma ChangeKeepsInv(g: Gate, to: Window)
    requires GateInv(g) && GateStep(g, Of(Change(to))).Some?
    ensures GateInv(GateStep(g, Of(Change(to))).value)
  {
    var g' := GateStep(g, Of(Change(to))).value;
    assert g'.history == g.history + [to] && g'.Current() == to;
    if g.pc.HasRead? {
      assert g'.history[g.pc.since - 1..] == g.history[g.pc.since - 1..] + [to];
      ReadStands(g, to, g.pc.state, g.readAt);
    }
    if g.site.Advertising? || g.site.WaitCaseClosed? {
      ReadStands(g, to, g.site.seen, g.site.at);
    }
  }

  lemma ReadKeepsInv(g: Gate)
    requires GateInv(g) && GateStep(g, Of(ReadState)).Some?
    ensures GateInv(GateStep(g, Of(ReadState)).value)
  {
    var since := g.pc.since;
    assert g.history[since - 1..][|g.history| - since] == g.Current();
  }

  lemma TestKeepsInv(g: Gate)
    requires GateInv(g) && GateStep(g, Of(Test)).Some?
    ensures GateInv(GateStep(g, Of(Test)).value)
  {
  }

  lemma GateStepKeepsInv(g: Gate, ge: GateEvent)
    requires GateInv(g) && GateStep(g, ge).Some?
    ensures GateInv(GateStep(g, ge).value)
  {
    match ge
    case Of(Change(to)) => ChangeKeepsInv(g, to);
    case Of(ReadState) => ReadKeepsInv(g);
    case Of(Test) => TestKeepsInv(g);
    case Of(Subscribe) =>
    case Of(Wake) =>
    case PeripheralEnds(_) =>
  }

  lemma {:induction false} GateInvHolds(initial: Window, es: seq<GateEvent>)
    requires Exec(GateStep, StartGate(initial), es).Some?
    ensures GateInv(Exec(GateStep, StartGate(initial), es).value)
  {
    if es != [] {
      GateInvHolds(initial, es[..|es| - 1]);
      GateStepKeepsInv(Exec(GateStep, StartGate(initial), es[..|es| - 1]).value, es[|es| - 1]);
    }
  }

  /** The peripheral is started by one step only: a test, in a loop that waits for any window, of a
      state without an opener, which the window really had since the subscription of this round. */
  lemma PeripheralStartsOnlyForOwnWindow(initial: Window, es: seq<GateEvent>, e: GateEvent)
    requires Exec(GateStep, StartGate(initial), es + [e]).Some?
    ensures Exec(GateStep, StartGate(initial), es).Some?
    ensures var g := Exec(GateStep, StartGate(initial), es).value;
            var g' := Exec(GateStep, StartGate(initial), es + [e]).value;
            !g.site.Advertising? && g'.site.Advertising? <==>
              && e == Of(Test) && g.site.WaitOpen? && g.pc.HasRead?
              && ReadSince(g, g.pc.since, g.pc.state) && g.pc.state.OnAllTransports()
              && g'.site == Advertising(g.pc.state, g.readAt)
  {
    assert (es + [e])[..|es|] == es;
    GateInvHolds(initial, es);
  }

  /** Whenever the loop sleeps with nothing pending: a running peripheral means that a window is
      open; and the peripheral runs exactly when a window of the device's own is open, if and only
      if there was no closing since the moment of the read the loop acts on, or the window there is
      now is of the same kind as the one there was then. */
  lemma BleFollowsOwnWindow(initial: Window, es: seq<GateEvent>)
    requires Exec(GateStep, StartGate(initial), es).Some?
    requires Exec(GateStep, StartGate(initial), es).value.Asleep()
    ensures var g := Exec(GateStep, StartGate(initial), es).value;
            && g.Valid()
            && (g.site.Advertising? ==> g.Current().Open?)
            && (g.site.WaitOpen? ==> g.Current().Closed?)
            && (!g.site.WaitOpen? ==>
                  && g.site.at < |g.history| && g.history[g.site.at] == g.site.seen
                  && (g.site.Advertising? <==> g.history[g.site.at].OnAllTransports())
                  && (Closed !in g.history[g.site.at..] ==> g.history[g.site.at] == g.Current()))
            && ((g.site.Advertising? <==> g.Current().OnAllTransports()) <==>
                  || g.site.WaitOpen? || Closed !in g.history[g.site.at..]
                  || g.history[g.site.at].OnAllTransports() == g.Current().OnAllTransports())
  {
    GateInvHolds(initial, es);
  }

  /** Where the kinds differ it does fail, either way: one missed closing leaves the peripheral running
      for a window that an administrator opened over CASE, or off for one of the device's own. */
  lemma MissedClosingMisleadsBle(fabric: Fabric, own: bool)
    ensures var first := Open(if own then None else Some(fabric));
            var second := Open(if own then Some(fabric) else None);
            var es := [Of(Subscribe), Of(ReadState), Of(Test), Of(Change(Closed)), Of(Change(second)),
                       Of(Subscribe), Of(ReadState), Of(Test)];
            var g := Exec(GateStep, StartGate(first), es);
            && g.Some? && g.value.Asleep() && g.value.Valid()
            && g.value.Current() == second
            && (g.value.site.Advertising? <==> own)
            && (second.OnAllTransports() <==> !own)
  {
    hide GateStep;
    var first := Open(if own then None else Some(fabric));
    var second := Open(if own then Some(fabric) else None);
    var g0 := StartGate(first);
    var site := if own then Advertising(first, 0) else WaitCaseClosed(first, 0);
    var g3 := Gate([first], Idle, site, 0);
    var g5 := Gate([first, Closed, second], Idle, site, 0);
    OneRound(g0);
    var changes := [Of(Change(Closed)), Of(Change(second))];
    ChangesBehindItsBack(g3, first, second);
    TrailRuns(GateStep, [g3, g3.(history := [first, Closed]), g5], changes);
    Join(GateStep, g0, ROUND, changes);
    OneRound(g5);
    Join(GateStep, g0, ROUND + changes, ROUND);
    assert ROUND + changes + ROUND
           == [Of(Subscribe), Of(ReadState), Of(Test), Of(Change(Closed)), Of(Change(second)),
               Of(Subscribe), Of(ReadState), Of(Test)];
  }

  lemma ChangesBehindItsBack(g: Gate, first: Window, second: Window)
    requires g.history == [first] && g.pc.Idle? && !g.site.Failed?
    ensures GateStep(g, Of(Change(Closed))) == Some(g.(history := [first, Closed]))
    ensures GateStep(g.(history := [first, Closed]), Of(Change(second)))
            == Some(g.(history := [first, Closed, second]))
  {
    assert [first] + [Closed] == [first, Closed] && [first, Closed] + [second] == [first, Closed, second];
  }

  /** The window there is now is one that the loop waits for. */
  predicate Awaited(g: Gate) {
    g.Valid() && g.site.Until()(g.Current())
  }

  /** How far the loop is from sleeping, if nothing changes any more. */
  function ToSleep(g: Gate): nat {
    var rounds := if Awaited(g) then 4 else 0;
    match g.pc
    case Idle => rounds + 3
    case Subscribed(since) => if since == |g.history| then rounds + 2 else 10
    case HasRead(since, _) => if since == |g.history| then rounds + 1 else 9
    case Parked(since) => if since == |g.history| then 0 else rounds + 4
    case Resolved(_) => 0
  }

  lemma GateGoesOn(g: Gate) returns (e: WatchEvent)
    requires GateInv(g) && !g.site.Failed? && !g.Asleep()
    ensures !e.Change? && GateStep(g, Of(e)).Some?
    ensures var g' := GateStep(g, Of(e)).value;
            g'.history == g.history && !g'.site.Failed? && ToSleep(g') < ToSleep(g)
  {
    e := match g.pc
      case Idle => Subscribe
      case Subscribed(_) => ReadState
      case HasRead(_, _) => Test
      case _ => Wake;
    if e.Test? {
      TestGoesOn(g);
    } else {
      assert GateStep(g, Of(e)).value.site == g.site;
    }
  }

  lemma TestGoesOn(g: Gate)
    requires GateInv(g) && !g.site.Failed? && g.pc.HasRead?
    ensures GateStep(g, Of(Test)).Some?
    ensures var g' := GateStep(g, Of(Test)).value;
            g'.history == g.history && !g'.site.Failed? && ToSleep(g') < ToSleep(g)
  {
    var g' := GateStep(g, Of(Test)).value;
    if g.site.Until()(g.pc.state) {
      assert g'.pc == Idle && (g.pc.since == |g.history| ==> !Awaited(g'));
    } else {
      assert g'.pc == Parked(g.pc.since) && g'.site == g.site;
    }
  }

  lemma AsleepAtRightPlace(g: Gate)
    requires GateInv(g) && g.Asleep()
    ensures g.Valid() && (g.site.WaitOpen? <==> g.Current().Closed?)
  {
  }

  /** The loop is never stuck either: once nothing changes any more, and as long as the peripheral
      keeps running, it goes on of itself until it sleeps. What it then does is said by
      `BleFollowsOwnWindow`; in particular it waits for a window again if there is none. */
  lemma {:induction false} GateSettles(g: Gate) returns (es: seq<GateEvent>)
    requires GateInv(g) && !g.site.Failed?
    ensures forall i :: 0 <= i < |es| ==> es[i].Of? && !es[i].e.Change?
    ensures var r := Exec(GateStep, g, es);
            && r.Some? && GateInv(r.value) && r.value.history == g.history && r.value.Asleep()
            && g.Valid() && (r.value.site.WaitOpen? <==> g.Current().Closed?)
    decreases ToSleep(g)
  {
    hide GateStep, GateInv, ToSleep;
    if g.Asleep() {
      AsleepAtRightPlace(g);
      return [];
    }
    var e := GateGoesOn(g);
    GateStepKeepsInv(g, Of(e));
    var rest := GateSettles(GateStep(g, Of(e)).value);
    es := [Of(e)] + rest;
    FirstStep(GateStep, g, es);
    assert es[1..] == rest;
  }

  /** The window may change at any time and to anything, but for the opener of one that is open. */
  lemma WindowsAreFree(g: Gate, to: Window)
    requires GateInv(g) && !g.site.Failed?
    ensures GateStep(g, Of(Change(to))).Some? <==> (g.Current().Open? && to.Open? ==> to == g.Current())
    ensures GateStep(g, Of(Change(to))).Some? ==>
              GateStep(g, Of(Change(to))).value == g.(history := g.history + [to])
  {
  }

  /** A peripheral that ends while it is needed: with an error it ends the loop, and nothing else
      does; without one the loop goes back to waiting for a window, and may start it again. */
  lemma OnlyPeripheralErrorsEndTheLoop(initial: Window, es: seq<GateEvent>, ok: bool)
    requires Exec(GateStep, StartGate(initial), es).Some?
    ensures var g := Exec(GateStep, StartGate(initial), es).value;
            && (g.site.Failed? <==> PeripheralEnds(false) in es)
            && (Exec(GateStep, StartGate(initial), es + [PeripheralEnds(ok)]).Some? <==> g.site.Advertising?)
            && (g.site.Advertising? && ok ==>
                  Exec(GateStep, StartGate(initial), es + [PeripheralEnds(ok)]).value.site.WaitOpen?)
  {
    assert (es + [PeripheralEnds(ok)])[..|es|] == es;
    FailsExactlyIf(initial, es);
  }

  lemma {:induction false} FailsExactlyIf(initial: Window, es: seq<GateEvent>)
    requires Exec(GateStep, StartGate(initial), es).Some?
    ensures Exec(GateStep, StartGate(initial), es).value.site.Failed? <==> PeripheralEnds(false) in es
  {
    if es != [] {
      var front := es[..|es| - 1];
      FailsExactlyIf(initial, front);
      assert es == front + [es[|es| - 1]];
    }
  }

  const ROUND := [Of(Subscribe), Of(ReadState), Of(Test)]

  /** Subscribe, read and test with no change in between. */
  lemma OneRound(g: Gate)
    requires g.Valid() && g.pc == Idle && !g.site.Failed?
    ensures !Awaited(g) ==>
              Exec(GateStep, g, ROUND) == Some(g.(pc := Parked(|g.history|), readAt := |g.history| - 1))
    ensures Awaited(g) && g.site.WaitOpen? ==>
              Exec(GateStep, g, ROUND) ==
              Some(g.(site := if g.Current().OnAllTransports() then Advertising(g.Current(), |g.history| - 1)
                              else WaitCaseClosed(g.Current(), |g.history| - 1),
                      readAt := |g.history| - 1))
  {
    hide GateStep;
    var n := |g.history|;
    var g1 := g.(pc := Subscribed(n));
    var g2 := g.(pc := HasRead(n, g.Current()), readAt := n - 1);
    Subscribing(g);
    Reading(g1, n);
    Testing(g2, n);
    var g3 := GateStep(g2, Of(Test));
    if g3.Some? {
      TrailRuns(GateStep, [g, g1, g2, g3.value], ROUND);
    }
  }

  lemma Subscribing(g: Gate)
    requires g.Valid() && g.pc == Idle && !g.site.Failed?
    ensures GateStep(g, Of(Subscribe)) == Some(g.(pc := Subscribed(|g.history|)))
  {
  }

  lemma Reading(g: Gate, since: nat)
    requires g.Valid() && g.pc == Subscribed(since) && !g.site.Failed?
    ensures GateStep(g, Of(ReadState)) == Some(g.(pc := HasRead(since, g.Current()), readAt := |g.history| - 1))
  {
  }

  lemma Testing(g: Gate, since: nat)
    requires g.Valid() && g.pc.HasRead? && g.pc.since == since && !g.site.Failed?
    ensures !g.site.Until()(g.pc.state) ==> GateStep(g, Of(Test)) == Some(g.(pc := Parked(since)))
    ensures g.site.WaitOpen? && g.pc.state.Open? ==>
              GateStep(g, Of(Test)) == Some(g.(pc := Idle, site := if g.pc.state.OnAllTransports()
                                                                   then Advertising(g.pc.state, g.readAt)
                                                                   else WaitCaseClosed(g.pc.state, g.readAt)))
  {
  }
}
