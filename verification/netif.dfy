/** Which network interface mDNS advertises, and when it is restarted. */
module Netif {
  type Ipv6 = nat
  type Ipv4 = nat
  type Mac = seq<nat>

  const UNSPECIFIED: nat := 0
  const NO_MAC: Mac := [0, 0, 0, 0, 0, 0, 0, 0]
  const MAX_IPV6_ADDRS: nat := 4

  /** An interface as the platform reports it. */
  datatype Interface = Interface(operational: bool, ipv6: seq<Ipv6>, ipv4: seq<Ipv4>, mac: Mac, index: nat) {
    predicate Qualifies() {
      operational && ipv6 != []
    }
  }

  datatype Snapshot = Snapshot(ipv6: seq<Ipv6>, ipv4: Ipv4, mac: Mac, operational: bool, index: nat)

  // ---------------------------------------------------------------------------------------
  // What a load yields

  /** The addresses that are not unspecified, each at its first occurrence. */
  function Usable(addrs: seq<Ipv6>): seq<Ipv6> {
    if addrs == [] then [] else
      var front, last := addrs[..|addrs| - 1], addrs[|addrs| - 1];
      if last == UNSPECIFIED || last in front then Usable(front) else Usable(front) + [last]
  }

  function FirstFour(addrs: seq<Ipv6>): seq<Ipv6> {
    if |addrs| <= MAX_IPV6_ADDRS then addrs else addrs[..MAX_IPV6_ADDRS]
  }

  function Cleared(index: nat): Snapshot {
    Snapshot([], UNSPECIFIED, NO_MAC, false, index)
  }

  function SnapshotOf(ni: Interface): Snapshot {
    Snapshot(FirstFour(Usable(ni.ipv6)), if ni.ipv4 == [] then UNSPECIFIED else ni.ipv4[0], ni.mac, true, ni.index)
  }

  /** The last interface that qualifies; with none, the cleared state, which keeps the old index. */
  function Loaded(index: nat, nis: seq<Interface>): Snapshot {
    if nis == [] then Cleared(index)
    else if nis[|nis| - 1].Qualifies() then SnapshotOf(nis[|nis| - 1])
    else Loaded(index, nis[..|nis| - 1])
  }

  lemma {:induction false} LoadedIsLastQualifying(index: nat, nis: seq<Interface>) returns (k: int)
    ensures -1 <= k < |nis|
    ensures forall j :: k < j < |nis| ==> !nis[j].Qualifies()
    ensures k >= 0 ==> nis[k].Qualifies() && Loaded(index, nis) == SnapshotOf(nis[k])
    ensures k == -1 ==> Loaded(index, nis) == Cleared(index)
  {
    k := |nis| - 1;
    if nis != [] && !nis[k].Qualifies() {
      k := LoadedIsLastQualifying(index, nis[..k]);
    }
  }

  /** The fields of a loaded state, when interface `k` is the last operational one with an IPv6
      address: its own index, MAC and first IPv4 address, and the first four of its distinct
      specified IPv6 addresses, which are `r`. */
  lemma LoadedFromLast(index: nat, nis: seq<Interface>, k: nat, r: seq<Ipv6>)
    requires k < |nis| && nis[k].operational && nis[k].ipv6 != []
    requires forall j :: k < j < |nis| ==> !(nis[j].operational && nis[j].ipv6 != [])
    requires DistinctInOrder(nis[k].ipv6, r)
    ensures var s, ni := Loaded(index, nis), nis[k];
            && s.operational && s.index == ni.index && s.mac == ni.mac
            && s.ipv4 == (if |ni.ipv4| > 0 then ni.ipv4[0] else 0)
            && |s.ipv6| == (if |r| < 4 then |r| else 4)
            && s.ipv6 <= r
  {
    var i := LoadedIsLastQualifying(index, nis);
    UsableIsTheOnlyOne(nis[k].ipv6, r);
  }

  /** And when there is none: nothing is left of what was there before but the index. */
  lemma LoadedFromNone(index: nat, nis: seq<Interface>)
    requires forall j :: 0 <= j < |nis| ==> !(nis[j].operational && nis[j].ipv6 != [])
    ensures var s := Loaded(index, nis);
            && !s.operational && s.ipv6 == [] && s.ipv4 == 0 && s.index == index
            && |s.mac| == 8 && forall i :: 0 <= i < 8 ==> s.mac[i] == 0
  {
    var i := LoadedIsLastQualifying(index, nis);
  }

  // What `Usable` means, and that this determines it.

  function FirstIndex(addrs: seq<Ipv6>, a: Ipv6): (i: nat)
    requires a in addrs
    ensures i < |addrs| && addrs[i] == a && a !in addrs[..i]
  {
    if addrs[0] == a then 0 else
      assert addrs == [addrs[0]] + addrs[1..];
      1 + FirstIndex(addrs[1..], a)
  }

  /** No two equal, exactly the addresses that are not unspecified, in order of first occurrence. */
  ghost predicate DistinctInOrder(addrs: seq<Ipv6>, r: seq<Ipv6>) {
    && (forall a :: a in r <==> a in addrs && a != UNSPECIFIED)
    && (forall i, j :: 0 <= i < j < |r| ==> r[i] in addrs && r[j] in addrs && FirstIndex(addrs, r[i]) < FirstIndex(addrs, r[j]))
  }

  lemma FirstIndexUnique(addrs: seq<Ipv6>, a: Ipv6, i: nat)
    requires i < |addrs| && addrs[i] == a && a !in addrs[..i]
    ensures FirstIndex(addrs, a) == i
  {
    var k := FirstIndex(addrs, a);
  }

  lemma {:induction false} UsableIsDistinctInOrder(addrs: seq<Ipv6>)
    ensures DistinctInOrder(addrs, Usable(addrs))
  {
    if addrs != [] {
      var front, last := addrs[..|addrs| - 1], addrs[|addrs| - 1];
      UsableIsDistinctInOrder(front);
      var r := Usable(addrs);
      assert forall a :: a in addrs <==> a in front || a == last;
      forall a | a in front ensures FirstIndex(addrs, a) == FirstIndex(front, a) {
        assert front[..FirstIndex(front, a)] == addrs[..FirstIndex(front, a)];
        FirstIndexUnique(addrs, a, FirstIndex(front, a));
      }
      if last !in front {
        FirstIndexUnique(addrs, last, |front|);
      }
    }
  }

  lemma NextAgrees(addrs: seq<Ipv6>, r: seq<Ipv6>, q: seq<Ipv6>, m: nat)
    requires DistinctInOrder(addrs, r) && DistinctInOrder(addrs, q)
    requires m < |r| && m <= |q| && r[..m] == q[..m]
    ensures m < |q| && q[m] == r[m]
  {
    var k := PlaceOf(addrs, r, q, m);
    if m < k {
      var l := PlaceOf(addrs, q, r, m);
    }
  }

  lemma PlaceOf(addrs: seq<Ipv6>, r: seq<Ipv6>, q: seq<Ipv6>, m: nat) returns (k: nat)
    requires DistinctInOrder(addrs, r) && DistinctInOrder(addrs, q)
    requires m < |r| && m <= |q| && r[..m] == q[..m]
    ensures m <= k < |q| && q[k] == r[m]
    ensures q[m] in addrs && r[m] in addrs
    ensures m < k ==> FirstIndex(addrs, q[m]) < FirstIndex(addrs, r[m])
  {
    forall x | 0 <= x < m ensures q[x] != r[m] {
      assert q[..m][x] == r[..m][x];
      assert FirstIndex(addrs, r[x]) < FirstIndex(addrs, r[m]);
    }
    assert r[m] in r;
    assert r[m] in q;
    k :| 0 <= k < |q| && q[k] == r[m];
    assert q[m] in q;
  }

  lemma {:induction false} DistinctInOrderIsUnique(addrs: seq<Ipv6>, r: seq<Ipv6>, q: seq<Ipv6>, n: nat)
    requires DistinctInOrder(addrs, r) && DistinctInOrder(addrs, q)
    requires n <= |r|
    ensures n <= |q| && r[..n] == q[..n]
  {
    if n > 0 {
      DistinctInOrderIsUnique(addrs, r, q, n - 1);
      NextAgrees(addrs, r, q, n - 1);
      assert r[..n] == r[..n - 1] + [r[n - 1]] && q[..n] == q[..n - 1] + [q[n - 1]];
    }
  }

  /** Nothing but `Usable(addrs)` is that. */
  lemma UsableIsTheOnlyOne(addrs: seq<Ipv6>, r: seq<Ipv6>)
    ensures DistinctInOrder(addrs, r) <==> r == Usable(addrs)
  {
    hide DistinctInOrder, Usable;
    UsableIsDistinctInOrder(addrs);
    if DistinctInOrder(addrs, r) {
      DistinctInOrderIsUnique(addrs, r, Usable(addrs), |r|);
      DistinctInOrderIsUnique(addrs, Usable(addrs), r, |Usable(addrs)|);
    }
  }

  lemma {:induction false} UsablePrefix(addrs: seq<Ipv6>, n: nat)
    requires n <= |addrs|
    ensures Usable(addrs[..n]) <= Usable(addrs)
  {
    if n == |addrs| {
      assert addrs[..n] == addrs;
    } else {
      var front := addrs[..|addrs| - 1];
      UsablePrefix(front, n);
      assert front[..n] == addrs[..n];
    }
  }

  // ---------------------------------------------------------------------------------------
  // The buffer, filled in place

  class NetifState {
    const ipv6: array<Ipv6>
    var count: nat
    var ipv4: Ipv4
    var mac: Mac
    var operational: bool
    var index: nat

    ghost predicate Valid()
      reads this
    {
      ipv6.Length == MAX_IPV6_ADDRS && count <= MAX_IPV6_ADDRS
    }

    ghost function View(): Snapshot
      reads this, ipv6
      requires Valid()
    {
      Snapshot(ipv6[..count], ipv4, mac, operational, index)
    }

    constructor ()
      ensures Valid() && fresh(ipv6) && View() == Cleared(0)
    {
      ipv6 := new Ipv6[MAX_IPV6_ADDRS];
      count, ipv4, mac, operational, index := 0, UNSPECIFIED, NO_MAC, false, 0;
    }

    method Copy() returns (s: Snapshot)
      requires Valid()
      ensures s == View()
    {
      s := Snapshot(ipv6[..count], ipv4, mac, operational, index);
    }

    /** Keep the first four distinct addresses that are specified. */
    method LoadAddrs(addrs: seq<Ipv6>)
      requires Valid()
      modifies this`count, ipv6
      ensures Valid() && ipv6[..count] == FirstFour(Usable(addrs))
    {
      count := 0;
      for i := 0 to |addrs|
        invariant Valid() && ipv6[..count] == Usable(addrs[..i])
      {
        var addr := addrs[i];
        assert addrs[..i + 1][..i] == addrs[..i] && addrs[..i + 1][i] == addr;
        UsableIsDistinctInOrder(addrs[..i]);
        if addr == UNSPECIFIED || addr in ipv6[..count] {
          continue;
        }
        if count == MAX_IPV6_ADDRS {
          // One too many: neither this one nor any later one is advertised
          UsablePrefix(addrs, i);
          UsablePrefix(addrs, i + 1);
          return;
        }
        ipv6[count] := addr;
        count := count + 1;
      }
      assert addrs[..|addrs|] == addrs;
    }

    /** `load_netif_state`, for a platform that reports `nis` and then `ok` or an error. Whatever
        was in the buffer before, of all that only the index can matter. */
    method Load(nis: seq<Interface>, ok: bool) returns (r: bool)
      requires Valid()
      modifies this, ipv6
      ensures Valid() && r == ok
      ensures View() == Loaded(old(index), nis)
    {
      operational := false;
      count := 0;
      ipv4 := UNSPECIFIED;
      mac := NO_MAC;
      for i := 0 to |nis|
        invariant Valid() && View() == Loaded(old(index), nis[..i])
      {
        var ni := nis[i];
        assert nis[..i + 1][..i] == nis[..i] && nis[..i + 1][i] == ni;
        if ni.operational && ni.ipv6 != [] {
          operational := true;
          LoadAddrs(ni.ipv6);
          ipv4 := if ni.ipv4 == [] then UNSPECIFIED else ni.ipv4[0];
          mac := ni.mac;
          index := ni.index;
        }
      }
      assert nis[..|nis|] == nis;
      r := ok;
    }
  }

  // ---------------------------------------------------------------------------------------
  // The mDNS loop

  /** What the platform reports when it is asked: some interfaces, then success or an error. */
  datatype Report = Report(nis: seq<Interface>, ok: bool)

  /** The snapshots that successive loads into one buffer yield. */
  function Loads(reports: seq<Report>): (r: seq<Snapshot>)
    ensures |r| == |reports|
  {
    if reports == [] then [] else
      var front := Loads(reports[..|reports| - 1]);
      var index := if front == [] then 0 else front[|front| - 1].index;
      front + [Loaded(index, reports[|reports| - 1].nis)]
  }

  /** A sequence without consecutive repeats. */
  function Changes(loads: seq<Snapshot>): (r: seq<Snapshot>)
    ensures r == [] <==> loads == []
    ensures r != [] ==> r[|r| - 1] == loads[|loads| - 1]
  {
    if loads == [] then [] else
      var front, last := Changes(loads[..|loads| - 1]), loads[|loads| - 1];
      if front != [] && front[|front| - 1] == last then front else front + [last]
  }

  lemma {:induction false} LoadsAt(reports: seq<Report>, n: nat)
    requires n < |reports|
    ensures Loads(reports)[n] == Loaded(if n == 0 then 0 else Loads(reports)[n - 1].index, reports[n].nis)
  {
    if n < |reports| - 1 {
      LoadsAt(reports[..|reports| - 1], n);
    }
  }

  lemma ChangesStep(loads: seq<Snapshot>, n: nat)
    requires n < |loads|
    ensures Changes(loads[..n + 1]) ==
            if n > 0 && loads[n] == loads[n - 1] then Changes(loads[..n]) else Changes(loads[..n]) + [loads[n]]
  {
    assert loads[..n + 1][..n] == loads[..n];
  }

  /** How many reports there are before the first error. */
  function BeforeError(reports: seq<Report>): (n: nat)
    ensures n <= |reports| && OkUpTo(reports, n)
    ensures n < |reports| ==> !reports[n].ok
  {
    if reports == [] || !reports[0].ok then 0 else 1 + BeforeError(reports[1..])
  }

  predicate OkUpTo(reports: seq<Report>, n: nat) {
    n <= |reports| && forall i :: 0 <= i < n ==> reports[i].ok
  }

  /** The snapshots loaded before the first error, without consecutive repeats. */
  function Configurations(reports: seq<Report>): seq<Snapshot> {
    Changes(Loads(reports)[..BeforeError(reports)])
  }

  function LastLoaded(reports: seq<Report>): Snapshot
    requires reports != []
  {
    Loads(reports)[|reports| - 1]
  }

  /** How `wait_changed` ends: a changed state, an error of the platform, or, when the platform
      has no more to report, never. */
  datatype Waited = Changed | PlatformError | StillWaiting

  /** `wait_changed`: load and compare, until something has changed. `n` reports were loaded
      before, `n'` are afterwards. */
  method WaitChanged(curState: Snapshot, newState: NetifState, reports: seq<Report>, n: nat)
    returns (r: Waited, n': nat)
    requires 1 <= n && OkUpTo(reports, n) && curState == Loads(reports)[n - 1]
    requires newState.Valid() && newState.View() == curState
    modifies newState, newState.ipv6
    ensures n <= n' && OkUpTo(reports, n') && newState.Valid()
    ensures r.Changed? ==>
              && newState.View() == Loads(reports)[n' - 1] != curState && n < n'
              && Changes(Loads(reports)[..n']) == Changes(Loads(reports)[..n]) + [newState.View()]
    ensures r.PlatformError? ==> n' < |reports| && !reports[n'].ok
    ensures r.StillWaiting? ==> n' == |reports| && newState.View() == curState
    ensures !r.Changed? ==> Changes(Loads(reports)[..n']) == Changes(Loads(reports)[..n])
  {
    hide Loaded, Loads, Changes;
    ghost var loads := Loads(reports);
    n' := n;
    while n' < |reports|
      invariant n <= n' && OkUpTo(reports, n') && curState == loads[n' - 1]
      invariant newState.Valid() && newState.View() == curState
      invariant Changes(loads[..n']) == Changes(loads[..n])
    {
      LoadsAt(reports, n');
      ChangesStep(loads, n');
      assert newState.index == loads[n' - 1].index;
      var ok := newState.Load(reports[n'].nis, reports[n'].ok);
      if !ok {
        return PlatformError, n';
      }
      assert newState.View() == loads[n'];
      n' := n' + 1;
      var loaded := newState.Copy();
      if loaded != curState {
        return Changed, n';
      }
    }
    r := StillWaiting;
  }

  /** `run_oper_netif_mdns`, asking the platform once for each of `reports` and then parked until
      it reports a change. `configs` are the configurations mDNS was set to, in order: one for
      each load that differs from the load before. When the watcher is parked mDNS has the
      configuration loaded last. An error of the platform ends the loop at once. */
  method RunOperNetifMdns(reports: seq<Report>) returns (configs: seq<Snapshot>, parked: bool)
    requires reports != []
    ensures configs == Configurations(reports)
    ensures parked <==> OkUpTo(reports, |reports|)
    ensures parked ==> configs != [] && configs[|configs| - 1] == LastLoaded(reports)
  {
    hide Loaded, Loads, Changes;
    ghost var loads := Loads(reports);
    configs := [];
    var newState := new NetifState();
    LoadsAt(reports, 0);
    ChangesStep(loads, 0);
    var ok := newState.Load(reports[0].nis, reports[0].ok);
    if !ok {
      return configs, false;
    }
    var used := 1;
    while true
      invariant 1 <= used && OkUpTo(reports, used)
      invariant newState.Valid() && fresh(newState) && fresh(newState.ipv6) && newState.View() == loads[used - 1]
      invariant Changes(loads[..used]) == configs + [newState.View()]
      decreases |reports| - used
    {
      var curState := newState.Copy();
      configs := configs + [curState];

      var r, n := WaitChanged(curState, newState, reports, used);
      used := n;
      if r.PlatformError? {
        return configs, false;
      }
      if r.StillWaiting? {
        return configs, true;
      }
    }
  }

  lemma {:induction false} ChangesPrefix(loads: seq<Snapshot>, n: nat)
    requires n <= |loads|
    ensures Changes(loads[..n]) <= Changes(loads)
  {
    if n == |loads| {
      assert loads[..n] == loads;
    } else {
      var front := loads[..|loads| - 1];
      ChangesPrefix(front, n);
      assert front[..n] == loads[..n];
    }
  }

  /** The history of configurations: neighbours differ; after load `k` mDNS has what load `k`
      yielded; and from one load to the next the history grows by one exactly when they differ. */
  lemma {:induction false} HistoryTracksLoads(loads: seq<Snapshot>, k: nat)
    requires k < |loads|
    ensures forall i :: 0 < i < |Changes(loads)| ==> Changes(loads)[i - 1] != Changes(loads)[i]
    ensures var at := |Changes(loads[..k + 1])| - 1;
            && 0 <= at < |Changes(loads)| && Changes(loads)[at] == loads[k]
            && (k + 1 < |loads| ==>
                  |Changes(loads[..k + 2])| - 1 == at + if loads[k] == loads[k + 1] then 0 else 1)
  {
    NeighboursDiffer(loads);
    ChangesPrefix(loads, k + 1);
    if k + 1 < |loads| {
      assert loads[..k + 2][..k + 1] == loads[..k + 1];
    }
  }

  lemma {:induction false} NeighboursDiffer(loads: seq<Snapshot>)
    ensures forall i :: 0 < i < |Changes(loads)| ==> Changes(loads)[i - 1] != Changes(loads)[i]
  {
    if loads != [] {
      NeighboursDiffer(loads[..|loads| - 1]);
    }
  }
}
