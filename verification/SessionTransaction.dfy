/** Install, monitor and teardown of a TUN session's network configuration as one transaction
    (src/windows_network_config.rs).
 */
module SessionTransaction {
  import opened Base
  import opened Addresses
  import opened Routing
  import opened NetworkOs
  import opened RouteSession

  // ---------------------------------------------------------------- interface settings

  /** A field is as first observed, or will be put back. */
  predicate FieldCovered(first: bool, now: bool, restore: Option<bool>) {
    now == first || restore == Some(first)
  }

  predicate Covered(first: Settings, now: Settings, restore: Patch) {
    && FieldCovered(first.forwarding, now.forwarding, restore.forwarding)
    && FieldCovered(first.weakSend, now.weakSend, restore.weakSend)
    && FieldCovered(first.weakReceive, now.weakReceive, restore.weakReceive)
  }

  /** The patch puts back first-observed values only. */
  predicate PutsBack(first: Settings, restore: Patch) {
    && (restore.forwarding.Some? ==> restore.forwarding.value == first.forwarding)
    && (restore.weakSend.Some? ==> restore.weakSend.value == first.weakSend)
    && (restore.weakReceive.Some? ==> restore.weakReceive.value == first.weakReceive)
  }

  ghost predicate CoveredBy(snapshots: seq<Snapshot>, luid: nat, first: Settings, now: Settings) {
    now == first || exists s :: s in snapshots && s.target.luid == luid && Covered(first, now, s.restore)
  }

  ghost predicate DistinctLuids(snapshots: seq<Snapshot>) {
    forall i, j :: 0 <= i < j < |snapshots| ==> snapshots[i].target.luid != snapshots[j].target.luid
  }

  ghost predicate Truthful(first: map<nat, Settings>, snapshots: seq<Snapshot>) {
    forall s :: s in snapshots ==>
      && s.target.luid in first
      && s.before == first[s.target.luid]
      && PutsBack(first[s.target.luid], s.restore)
  }

  /** Whatever differs from the first observation is listed for restoring, except on interfaces
      that have vanished. */
  ghost predicate Recoverable(first: map<nat, Settings>, now: map<nat, Settings>, snapshots: seq<Snapshot>, gone: set<nat>) {
    && first.Keys == now.Keys
    && DistinctLuids(snapshots)
    && Truthful(first, snapshots)
    && forall luid :: luid in now && luid !in gone ==> CoveredBy(snapshots, luid, first[luid], now[luid])
  }

  function MergeField(restore: Option<bool>, patch: Option<bool>, before: bool): Option<bool> {
    if patch.Some? && restore.None? then Some(before) else restore
  }

  /** `merge_owned`: the first value of every field about to be changed. */
  function MergeOwned(restore: Patch, patch: Patch, before: Settings): Patch {
    Patch(
      MergeField(restore.forwarding, patch.forwarding, before.forwarding),
      MergeField(restore.weakSend, patch.weakSend, before.weakSend),
      MergeField(restore.weakReceive, patch.weakReceive, before.weakReceive))
  }

  function Require(current: bool): Option<bool> {
    if current then None else Some(true)
  }

  /** `required_interface_patch`. */
  function RequiredPatch(role: Role, current: Settings): Patch {
    match role
    case Tun => Patch(Require(current.forwarding), Require(current.weakSend), Require(current.weakReceive))
    case WslHns => Patch(Require(current.forwarding), None, None)
  }

  const ALL_ON: Settings := Settings(true, true, true)

  lemma RequiredPatchSuffices(role: Role, current: Settings)
    ensures var settings := Apply(current, RequiredPatch(role, current));
      && settings.forwarding
      && (role.Tun? ==> settings == ALL_ON)
      && (role.WslHns? ==> settings.weakSend == current.weakSend && settings.weakReceive == current.weakReceive)
  {
  }

  lemma NoPatchChangesNothing(settings: Settings)
    ensures Apply(settings, NO_PATCH) == settings
  {
  }

  /** Noting the first value of what is about to change keeps everything covered, even if the
      change is applied in part. */
  lemma MergeCovers(first: Settings, now: Settings, next: Settings, restore: Patch, patch: Patch)
    requires Covered(first, now, restore) && PutsBack(first, restore) && Between(now, patch, next)
    ensures Covered(first, next, MergeOwned(restore, patch, first))
    ensures PutsBack(first, MergeOwned(restore, patch, first))
    ensures var merged := MergeOwned(restore, patch, first);
      && (merged.forwarding.Some? <==> restore.forwarding.Some? || patch.forwarding.Some?)
      && (merged.weakSend.Some? <==> restore.weakSend.Some? || patch.weakSend.Some?)
      && (merged.weakReceive.Some? <==> restore.weakReceive.Some? || patch.weakReceive.Some?)
  {
  }

  lemma RestoreReturns(first: Settings, now: Settings, next: Settings, restore: Patch)
    requires Covered(first, now, restore) && PutsBack(first, restore)
    ensures Apply(now, restore) == first
    ensures Between(now, restore, next) ==> Covered(first, next, restore)
  {
  }

  /** Only the settings of one interface change. */
  ghost predicate OnlyLuid(luid: nat, was: map<nat, Settings>, now: map<nat, Settings>) {
    was.Keys == now.Keys && forall other :: other in now && other != luid ==> now[other] == was[other]
  }

  lemma AddSnapshot(first: map<nat, Settings>, now: map<nat, Settings>, snapshots: seq<Snapshot>, gone: set<nat>, target: Target)
    requires Recoverable(first, now, snapshots, gone)
    requires target.luid in now && target.luid !in gone
    requires forall s :: s in snapshots ==> s.target.luid != target.luid
    ensures Recoverable(first, now, snapshots + [Snapshot(target, now[target.luid], NO_PATCH)], gone)
  {
    var more := snapshots + [Snapshot(target, now[target.luid], NO_PATCH)];
    assert now[target.luid] == first[target.luid];
    assert forall s :: s in snapshots ==> s in more;
    forall luid | luid in now && luid !in gone
      ensures CoveredBy(more, luid, first[luid], now[luid])
    {
      assert CoveredBy(snapshots, luid, first[luid], now[luid]);
    }
  }

  lemma VanishKeeps(first: map<nat, Settings>, now: map<nat, Settings>, snapshots: seq<Snapshot>, gone: set<nat>, more: set<nat>)
    requires Recoverable(first, now, snapshots, gone) && gone <= more
    ensures Recoverable(first, now, snapshots, more)
  {
  }

  lemma TheSnapshot(first: map<nat, Settings>, now: map<nat, Settings>, snapshots: seq<Snapshot>, gone: set<nat>, i: nat)
    requires Recoverable(first, now, snapshots, gone) && i < |snapshots|
    ensures var luid := snapshots[i].target.luid;
      && luid in now && luid in first
      && snapshots[i].before == first[luid] && PutsBack(first[luid], snapshots[i].restore)
      && (luid !in gone ==> Covered(first[luid], now[luid], snapshots[i].restore))
  {
    assert snapshots[i] in snapshots;
    var luid := snapshots[i].target.luid;
    if luid !in gone {
      assert CoveredBy(snapshots, luid, first[luid], now[luid]);
      if now[luid] != first[luid] {
        var s :| s in snapshots && s.target.luid == luid && Covered(first[luid], now[luid], s.restore);
        var k :| 0 <= k < |snapshots| && snapshots[k] == s;
      }
    }
  }

  lemma MergeSnapshot(
    first: map<nat, Settings>, now: map<nat, Settings>, next: map<nat, Settings>,
    snapshots: seq<Snapshot>, gone: set<nat>, i: nat, patch: Patch)
    requires Recoverable(first, now, snapshots, gone) && i < |snapshots|
    requires OnlyLuid(snapshots[i].target.luid, now, next)
    requires snapshots[i].target.luid in now ==>
      Between(now[snapshots[i].target.luid], patch, next[snapshots[i].target.luid])
    ensures var s := snapshots[i];
      Recoverable(first, next, snapshots[i := s.(restore := MergeOwned(s.restore, patch, s.before))], gone)
  {
    hide Covered, PutsBack, MergeOwned, Between;
    var s := snapshots[i];
    var luid := s.target.luid;
    var merged := s.(restore := MergeOwned(s.restore, patch, s.before));
    var updated := snapshots[i := merged];
    TheSnapshot(first, now, snapshots, gone, i);
    if luid !in gone {
      MergeCovers(first[luid], now[luid], next[luid], s.restore, patch);
      assert updated[i] in updated;
    } else {
      MergePutsBack(first[luid], s.restore, patch);
    }
    forall t | t in updated
      ensures t.target.luid in first && t.before == first[t.target.luid] && PutsBack(first[t.target.luid], t.restore)
    {
      assert t == merged || t in snapshots;
    }
    forall other | other in next && other !in gone
      ensures CoveredBy(updated, other, first[other], next[other])
    {
      if other != luid {
        assert CoveredBy(snapshots, other, first[other], now[other]);
        if now[other] != first[other] {
          var t :| t in snapshots && t.target.luid == other && Covered(first[other], now[other], t.restore);
          var k :| 0 <= k < |snapshots| && snapshots[k] == t;
          assert updated[k] == t;
        }
      }
    }
  }

  lemma MergePutsBack(first: Settings, restore: Patch, patch: Patch)
    requires PutsBack(first, restore)
    ensures PutsBack(first, MergeOwned(restore, patch, first))
  {
  }

  function FindSnapshot(snapshots: seq<Snapshot>, luid: nat): (index: Option<nat>)
    ensures index.Some? ==> index.value < |snapshots| && snapshots[index.value].target.luid == luid
    ensures index.None? ==> forall s :: s in snapshots ==> s.target.luid != luid
  {
    if snapshots == [] then None
    else if snapshots[|snapshots| - 1].target.luid == luid then Some(|snapshots| - 1)
    else FindSnapshot(snapshots[..|snapshots| - 1], luid)
  }

  /** One interface of the list below; a WSL interface may have vanished. */
  method EnableTarget(os: Os, record: InstallRecord, target: Target, ghost first: map<nat, Settings>) returns (ok: bool)
    requires Recoverable(first, os.settings, record.snapshots, os.gone)
    modifies os`settings, os`gone, os`faults, os`patches, record`snapshots
    ensures Recoverable(first, os.settings, record.snapshots, os.gone)
    ensures old(os.gone) <= os.gone && OnlyLuid(target.luid, old(os.settings), os.settings)
    ensures os.faults >= old(os.faults) && (!ok ==> os.faults > old(os.faults))
    ensures ok ==> Forwards(os.settings, os.gone, target.luid)
    ensures ok && target.role.Tun? ==> target.luid in os.settings && os.settings[target.luid] == ALL_ON
    ensures target.luid in old(os.gone) || target.luid !in old(os.settings) ==>
      (ok <==> target.role.WslHns?) && record.snapshots == old(record.snapshots) && os.settings == old(os.settings)
  {
    hide Recoverable, MergeOwned, Between, Apply, RequiredPatch;
    ghost var gone := os.gone;
    var read := os.InterfaceSettings(target.luid);
    VanishKeeps(first, os.settings, record.snapshots, gone, os.gone);
    if read == Err(NotFound) && target.role.WslHns? {
      return true;
    }
    if read.Err? {
      return false;
    }
    var current := read.value;
    var required := RequiredPatch(target.role, current);
    RequiredPatchSuffices(target.role, current);
    NoPatchChangesNothing(current);
    var index := FindSnapshot(record.snapshots, target.luid);
    var at: nat;
    if index.Some? {
      at := index.value;
    } else {
      AddSnapshot(first, os.settings, record.snapshots, os.gone, target);
      record.snapshots := record.snapshots + [Snapshot(target, current, NO_PATCH)];
      at := |record.snapshots| - 1;
    }
    if required == NO_PATCH {
      return true;
    }
    ghost var snapshots, now := record.snapshots, os.settings;
    gone := os.gone;
    var snapshot := record.snapshots[at];
    record.snapshots := record.snapshots[at := snapshot.(restore := MergeOwned(snapshot.restore, required, snapshot.before))];
    var applied := os.ApplyPatch(target.luid, required);
    MergeSnapshot(first, now, os.settings, snapshots, gone, at, required);
    VanishKeeps(first, os.settings, record.snapshots, gone, os.gone);
    return applied.Ok?;
  }

  /** `reconcile_interface_settings`: forwarding is switched on where it is needed; the first value
      of every field is noted before the field is changed. */
  method ReconcileInterfaces(os: Os, record: InstallRecord, ghost first: map<nat, Settings>) returns (ok: bool)
    requires Recoverable(first, os.settings, record.snapshots, os.gone)
    modifies os`settings, os`gone, os`faults, os`listing, os`patches, record`snapshots
    ensures Recoverable(first, os.settings, record.snapshots, os.gone)
    ensures old(os.gone) <= os.gone
    ensures ok ==> Forwarding(os.settings, os.gone, record.tun, os.listing)
    ensures os.faults >= old(os.faults) && (!ok ==> os.faults > old(os.faults))
  {
    hide Recoverable;
    var wsl := os.WslInterfaces();
    if wsl.Err? {
      return false;
    }
    var targets := [Target(record.tun, Tun)] + wsl.value;
    var unique: set<nat> := {};
    for i := 0 to |targets|
      invariant Recoverable(first, os.settings, record.snapshots, os.gone)
      invariant old(os.gone) <= os.gone && os.faults >= old(os.faults) && os.listing == wsl.value
      invariant i == 0 ==> unique == {}
      invariant forall k :: 0 <= k < i ==> targets[k].luid in unique
      invariant forall luid :: luid in unique ==> Forwards(os.settings, os.gone, luid)
      invariant i > 0 ==> record.tun in unique && record.tun in os.settings && os.settings[record.tun] == ALL_ON
    {
      var target := targets[i];
      if target.luid in unique {
        continue;
      }
      ok := EnableTarget(os, record, target, first);
      if !ok {
        return;
      }
      unique := unique + {target.luid};
    }
    forall target | target in os.listing
      ensures Forwards(os.settings, os.gone, target.luid)
    {
      var k :| 0 <= k < |os.listing| && os.listing[k] == target;
      assert targets[k + 1] == target;
    }
    return true;
  }

  /** The interface forwards, or is not there any more. */
  predicate Forwards(settings: map<nat, Settings>, gone: set<nat>, luid: nat) {
    luid in gone || luid !in settings || settings[luid].forwarding
  }

  /** The TUN has every setting on, and each listed WSL interface forwards. */
  ghost predicate Forwarding(settings: map<nat, Settings>, gone: set<nat>, tun: nat, listing: seq<Target>) {
    && tun in settings && settings[tun] == ALL_ON
    && forall target :: target in listing ==> Forwards(settings, gone, target.luid)
  }

  // ---------------------------------------------------------------- teardown

  /** What the session found. */
  datatype Origin = Origin(table: set<Route>, dns: Dns, settings: map<nat, Settings>)

  ghost predicate Restored(origin: Origin, tun: nat, os: Os)
    reads os
  {
    && os.table == origin.table
    && DnsOf(os.dns, tun) == origin.dns
    && os.settings.Keys == origin.settings.Keys
    && forall luid :: luid in os.settings && luid !in os.gone ==> os.settings[luid] == origin.settings[luid]
  }

  /** Everything the session has changed is on record. */
  ghost predicate Inv(origin: Origin, os: Os, record: InstallRecord)
    reads os, record
  {
    && RoutesOk(origin.table, os, record)
    && record.dnsBefore == origin.dns
    && (!record.dnsChanged ==> DnsOf(os.dns, record.tun) == origin.dns)
    && Recoverable(origin.settings, os.settings, record.snapshots, os.gone)
    && (record.removed ==> record.owned == [] && !record.dnsChanged && record.snapshots == [])
  }

  lemma NothingLeft(origin: Origin, os: Os, record: InstallRecord)
    requires Inv(origin, os, record) && record.owned == [] && !record.dnsChanged && record.snapshots == []
    ensures Restored(origin, record.tun, os)
  {
    assert Rows([]) == {};
    forall luid | luid in os.settings && luid !in os.gone
      ensures os.settings[luid] == origin.settings[luid]
    {
      assert CoveredBy([], luid, origin.settings[luid], os.settings[luid]);
    }
  }

  function Reverse<T>(items: seq<T>): seq<T> {
    if items == [] then [] else Reverse(items[1..]) + [items[0]]
  }

  lemma {:induction false} ReverseAppend<T>(items: seq<T>, item: T)
    ensures Reverse(items + [item]) == [item] + Reverse(items)
  {
    if items != [] {
      ReverseAppend(items[1..], item);
      assert (items + [item])[1..] == items[1..] + [item];
      assert [item] + Reverse(items[1..]) + [items[0]] == [item] + (Reverse(items[1..]) + [items[0]]);
    } else {
      assert items + [item] == [item];
    }
  }

  /** Deletes the owned rows in reverse order. What cannot be deleted stays owned, in the order of
      installation. */
  method CleanupRoutes(os: Os, record: InstallRecord, ghost initial: set<Route>) returns (clean: bool, ghost deleted: set<Route>)
    requires RoutesOk(initial, os, record)
    modifies os`table, os`history, os`faults, os`undeleted, os`calls, record`owned
    ensures RoutesOk(initial, os, record)
    ensures deleted <= Rows(old(record.owned))
    ensures record.owned == Except(old(record.owned), deleted)
    ensures os.table == old(os.table) - deleted
    ensures clean <==> record.owned == []
    ensures os.calls == old(os.calls) + Deletions(Reverse(old(record.owned)))
    ensures if clean then os.faults == old(os.faults) else os.faults > old(os.faults)
  {
    hide Owns, KeyOf, WithoutKey, HasKey, Except, Reverse, BypassMetric, Deletions;
    var routes := record.owned;
    var failed: seq<Route> := [];
    deleted := {};
    var n := |routes|;
    NoneYet(routes);
    NoDeletions(os.calls, routes);
    OwnsDistinct(initial, os.table, routes);
    while n > 0
      invariant 0 <= n <= |routes|
      invariant Owns(initial, os.table, routes[..n] + Reverse(failed))
      invariant NeverLost(initial, os.history)
      invariant deleted <= Rows(routes[n..])
      invariant os.table == old(os.table) - deleted
      invariant Reverse(failed) == Except(routes[n..], deleted)
      invariant os.calls == old(os.calls) + Deletions(Reverse(routes[n..]))
      invariant if failed == [] then os.faults == old(os.faults) else os.faults > old(os.faults)
    {
      DeletionStep(old(os.calls), routes, n);
      var route := routes[n - 1];
      ghost var kept := Reverse(failed);
      ghost var list := routes[..n] + kept;
      CleanupStep(initial, os.table, routes, n, kept);
      KeepStep(routes, n, deleted);
      RowsNeverLost(initial, os.table, list, os.history);
      RowsNeverLost(initial, WithoutKey(os.table, KeyOf(route)), routes[..n - 1] + kept, os.history);
      ReverseAppend(failed, route);
      n := n - 1;
      var ok := os.DeleteRoute(route);
      if ok {
        deleted := deleted + {route};
      } else {
        failed := failed + [route];
      }
    }
    assert routes[0..] == routes && routes[..0] + Reverse(failed) == Reverse(failed);
    ExceptMembers(routes, deleted);
    record.owned := Reverse(failed);
    clean := failed == [];
    ReverseEmpty(failed);
    assert BypassMetric(record.tun, record.owned) by { BypassMetricSubset(record.tun, routes, record.owned); }
  }

  function Deletions(routes: seq<Route>): (calls: seq<Call>)
    ensures |calls| == |routes|
    ensures forall i :: 0 <= i < |routes| ==> calls[i] == Delete(routes[i])
  {
    if routes == [] then [] else [Delete(routes[0])] + Deletions(routes[1..])
  }

  lemma NoDeletions(calls: seq<Call>, routes: seq<Route>)
    ensures calls + Deletions(Reverse(routes[|routes|..])) == calls
  {
  }

  lemma DeletionStep(calls: seq<Call>, routes: seq<Route>, n: nat)
    requires 0 < n <= |routes|
    ensures calls + Deletions(Reverse(routes[n..])) + [Delete(routes[n - 1])] == calls + Deletions(Reverse(routes[n - 1..]))
  {
    hide Deletions;
    assert routes[n - 1..][1..] == routes[n..];
    assert Reverse(routes[n - 1..]) == Reverse(routes[n..]) + [routes[n - 1]];
    assert Deletions(Reverse(routes[n..]) + [routes[n - 1]]) == Deletions(Reverse(routes[n..])) + [Delete(routes[n - 1])];
  }

  function Creations(routes: seq<Route>): (calls: seq<Call>)
    ensures |calls| == |routes|
    ensures forall i :: 0 <= i < |routes| ==> calls[i] == Create(routes[i])
  {
    if routes == [] then [] else [Create(routes[0])] + Creations(routes[1..])
  }

  lemma BypassMetricSubset(tun: nat, routes: seq<Route>, some: seq<Route>)
    requires BypassMetric(tun, routes) && forall r :: r in some ==> r in routes
    ensures BypassMetric(tun, some)
  {
  }

  lemma NoneYet(routes: seq<Route>)
    ensures routes[..|routes|] + Reverse([]) == routes
    ensures Except(routes[|routes|..], {}) == Reverse([])
  {
  }

  lemma ReverseEmpty<T>(items: seq<T>)
    ensures Reverse(items) == [] <==> items == []
  {
  }

  lemma CleanupStep(initial: set<Route>, table: set<Route>, routes: seq<Route>, n: nat, kept: seq<Route>)
    requires 0 < n <= |routes| && Owns(initial, table, routes[..n] + kept)
    ensures routes[..n] + kept == routes[..n - 1] + ([routes[n - 1]] + kept)
    ensures Owns(initial, WithoutKey(table, KeyOf(routes[n - 1])), routes[..n - 1] + kept)
    ensures WithoutKey(table, KeyOf(routes[n - 1])) == table - {routes[n - 1]}
    ensures DistinctKeys(routes[..n] + kept)
  {
    hide Owns, DistinctKeys, KeyOf, WithoutKey, HasKey, Except;
    var list, route := routes[..n] + kept, routes[n - 1];
    assert list[n - 1] == route;
    OwnsDistinct(initial, table, list);
    NotInitial(initial, table, list, route);
    OwnsDelete(initial, table, list, route);
    RemoveIsExcept(list, n - 1);
    RemoveMiddle(routes, n, kept);
  }

  lemma RemoveMiddle(routes: seq<Route>, n: nat, kept: seq<Route>)
    requires 0 < n <= |routes|
    ensures Remove(routes[..n] + kept, n - 1) == routes[..n - 1] + kept
  {
  }

  lemma KeepStep(routes: seq<Route>, n: nat, deleted: set<Route>)
    requires 0 < n <= |routes| && deleted <= Rows(routes[n..])
    requires DistinctKeys(routes)
    ensures var route := routes[n - 1];
      && Except(routes[n - 1..], deleted) == [route] + Except(routes[n..], deleted)
      && Except(routes[n - 1..], deleted + {route}) == Except(routes[n..], deleted)
      && deleted + {route} <= Rows(routes[n - 1..])
  {
    hide Except;
    var route, rest := routes[n - 1], routes[n..];
    assert routes[n - 1..] == [route] + rest;
    assert route !in rest;
    ExceptAppend([route], rest, deleted);
    ExceptAppend([route], rest, deleted + {route});
    ExceptNone([route], deleted);
    ExceptAll([route], deleted + {route});
    ExceptOther(rest, deleted, route);
    assert [] + Except(rest, deleted) == Except(rest, deleted);
  }

  lemma {:induction false} ExceptOther(routes: seq<Route>, deleted: set<Route>, route: Route)
    requires route !in routes
    ensures Except(routes, deleted + {route}) == Except(routes, deleted)
  {
    if routes != [] {
      ExceptOther(routes[..|routes| - 1], deleted, route);
    }
  }

  /** An interface that is as first observed, or gone, needs no snapshot. */
  lemma DropSnapshot(
    first: map<nat, Settings>, now: map<nat, Settings>, next: map<nat, Settings>,
    left: seq<Snapshot>, s: Snapshot, right: seq<Snapshot>, gone: set<nat>)
    requires Recoverable(first, now, left + [s] + right, gone)
    requires OnlyLuid(s.target.luid, now, next)
    requires s.target.luid in next && s.target.luid !in gone ==> s.target.luid in first && next[s.target.luid] == first[s.target.luid]
    ensures Recoverable(first, next, left + right, gone)
  {
    hide Covered, PutsBack;
    var all := left + [s] + right;
    assert forall k :: 0 <= k < |left + right| ==> (left + right)[k] == all[if k < |left| then k else k + 1];
    assert forall t :: t in left + right ==> t in all;
    forall luid | luid in next && luid !in gone
      ensures CoveredBy(left + right, luid, first[luid], next[luid])
    {
      if luid != s.target.luid {
        assert CoveredBy(all, luid, first[luid], now[luid]);
        if now[luid] != first[luid] {
          var t :| t in all && t.target.luid == luid && Covered(first[luid], now[luid], t.restore);
          assert t in left + right;
        }
      }
    }
  }

  lemma KeepSnapshot(
    first: map<nat, Settings>, now: map<nat, Settings>, next: map<nat, Settings>,
    snapshots: seq<Snapshot>, i: nat, gone: set<nat>)
    requires Recoverable(first, now, snapshots, gone) && i < |snapshots|
    requires OnlyLuid(snapshots[i].target.luid, now, next)
    requires snapshots[i].target.luid in now ==>
      Between(now[snapshots[i].target.luid], snapshots[i].restore, next[snapshots[i].target.luid])
    ensures Recoverable(first, next, snapshots, gone)
  {
    hide Covered, PutsBack, Between;
    var luid := snapshots[i].target.luid;
    TheSnapshot(first, now, snapshots, gone, i);
    if luid !in gone {
      RestoreReturns(first[luid], now[luid], next[luid], snapshots[i].restore);
    }
    forall other | other in next && other !in gone
      ensures CoveredBy(snapshots, other, first[other], next[other])
    {
      assert CoveredBy(snapshots, other, first[other], now[other]);
      assert snapshots[i] in snapshots;
    }
  }

  /** The patch calls that put the snapshots back, the last snapshot first. */
  function Restores(snapshots: seq<Snapshot>): seq<(nat, Patch)> {
    if snapshots == [] then []
    else
      Restores(snapshots[1..]) +
      if snapshots[0].restore == NO_PATCH then [] else [(snapshots[0].target.luid, snapshots[0].restore)]
  }

  ghost function Made(log: seq<PatchCall>): seq<(nat, Patch)> {
    seq(|log|, i requires 0 <= i < |log| => (log[i].luid, log[i].patch))
  }

  /** A call on the interface failed, and not because a WSL interface has vanished. */
  ghost predicate StillDue(s: Snapshot, log: seq<PatchCall>) {
    exists call :: call in log && call.luid == s.target.luid && Failed(s, call)
  }

  predicate Failed(s: Snapshot, call: PatchCall) {
    call.outcome.Err? && !(call.outcome == Err(NotFound) && s.target.role.WslHns?)
  }

  ghost function Due(snapshots: seq<Snapshot>, log: seq<PatchCall>): seq<Snapshot> {
    if snapshots == [] then []
    else (if StillDue(snapshots[0], log) then [snapshots[0]] else []) + Due(snapshots[1..], log)
  }

  ghost predicate Untried(snapshots: seq<Snapshot>, log: seq<PatchCall>) {
    forall s, call :: s in snapshots && call in log ==> call.luid != s.target.luid
  }

  lemma {:induction false} DueElsewhere(snapshots: seq<Snapshot>, log: seq<PatchCall>, call: PatchCall)
    requires forall s :: s in snapshots ==> s.target.luid != call.luid
    ensures Due(snapshots, log + [call]) == Due(snapshots, log)
  {
    if snapshots != [] {
      DueElsewhere(snapshots[1..], log, call);
      assert StillDue(snapshots[0], log + [call]) <==> StillDue(snapshots[0], log);
    }
  }

  /** One more snapshot, without a call or with one. */
  lemma RestoreStep(snapshots: seq<Snapshot>, n: nat, log: seq<PatchCall>, call: PatchCall)
    requires n < |snapshots| && DistinctLuids(snapshots) && Untried(snapshots[..n + 1], log)
    ensures Untried(snapshots[..n], log)
    ensures var s := snapshots[n];
      && (s.restore == NO_PATCH ==>
            && Restores(snapshots[n..]) == Restores(snapshots[n + 1..])
            && Due(snapshots[n..], log) == Due(snapshots[n + 1..], log))
      && (s.restore != NO_PATCH && call.luid == s.target.luid && call.patch == s.restore ==>
            && Untried(snapshots[..n], log + [call])
            && Restores(snapshots[n..]) == Restores(snapshots[n + 1..]) + [(call.luid, call.patch)]
            && Due(snapshots[n..], log + [call])
            == (if Failed(s, call) then [s] else []) + Due(snapshots[n + 1..], log))
  {
    hide Failed;
    var s, rest := snapshots[n], snapshots[n + 1..];
    assert snapshots[n..][1..] == rest;
    assert s in snapshots[..n + 1] by { assert snapshots[..n + 1][n] == s; }
    assert !StillDue(s, log);
    if call.luid == s.target.luid {
      DueElsewhere(rest, log, call);
      if Failed(s, call) {
        assert call in log + [call];
      }
    }
  }

  lemma MadeStep(log: seq<PatchCall>, call: PatchCall)
    ensures Made(log + [call]) == Made(log) + [(call.luid, call.patch)]
  {
  }

  lemma LuidsDistinct(first: map<nat, Settings>, now: map<nat, Settings>, snapshots: seq<Snapshot>, gone: set<nat>)
    requires Recoverable(first, now, snapshots, gone)
    ensures DistinctLuids(snapshots)
  {
  }

  /** Puts interface settings back in reverse order. Exactly the snapshots whose call failed are kept,
      in their order, except for WSL interfaces that have vanished. */
  method CleanupInterfaces(os: Os, record: InstallRecord, ghost first: map<nat, Settings>) returns (clean: bool)
    requires Recoverable(first, os.settings, record.snapshots, os.gone)
    modifies os`settings, os`gone, os`faults, os`patches, record`snapshots
    ensures Recoverable(first, os.settings, record.snapshots, os.gone)
    ensures old(os.gone) <= os.gone
    ensures |old(os.patches)| <= |os.patches| && os.patches[..|old(os.patches)|] == old(os.patches)
    ensures Made(os.patches[|old(os.patches)|..]) == Restores(old(record.snapshots))
    ensures record.snapshots == Due(old(record.snapshots), os.patches[|old(os.patches)|..])
    ensures clean <==> record.snapshots == []
    ensures os.faults >= old(os.faults) && (!clean ==> os.faults > old(os.faults))
  {
    hide Recoverable, Reverse, Apply, Between, Restores, Made, Due, Untried, Failed, DistinctLuids;
    var snapshots := record.snapshots;
    var failed: seq<Snapshot> := [];
    var n := |snapshots|;
    ghost var from := |os.patches|;
    NothingFailed(snapshots, os.patches);
    LuidsDistinct(first, os.settings, snapshots, os.gone);
    while n > 0
      invariant 0 <= n <= |snapshots|
      invariant Recoverable(first, os.settings, snapshots[..n] + Reverse(failed), os.gone)
      invariant old(os.gone) <= os.gone
      invariant from <= |os.patches| && os.patches[..from] == old(os.patches)
      invariant Untried(snapshots[..n], os.patches[from..])
      invariant Made(os.patches[from..]) == Restores(snapshots[n..])
      invariant Reverse(failed) == Due(snapshots[n..], os.patches[from..])
      invariant os.faults >= old(os.faults) && (failed != [] ==> os.faults > old(os.faults))
    {
      n := n - 1;
      var snapshot := snapshots[n];
      ghost var left, right := snapshots[..n], Reverse(failed);
      ghost var now, gone, log := os.settings, os.gone, os.patches[from..];
      assert snapshots[..n + 1] + right == left + [snapshot] + right;
      TheSnapshot(first, now, left + [snapshot] + right, gone, n);
      if snapshot.restore == NO_PATCH {
        RestoreStep(snapshots, n, log, PatchCall(0, NO_PATCH, Ok(())));
        UntouchedInterface(first, now, left + [snapshot] + right, gone, n);
        DropSnapshot(first, now, now, left, snapshot, right, gone);
        continue;
      }
      var applied := os.ApplyPatch(snapshot.target.luid, snapshot.restore);
      ghost var call := PatchCall(snapshot.target.luid, snapshot.restore, applied);
      assert os.patches[from..] == log + [call];
      RestoreStep(snapshots, n, log, call);
      MadeStep(log, call);
      WhenFailed(snapshot, call);
      if applied.Ok? {
        PatchReturns(first, now, left + [snapshot] + right, gone, n);
        DropSnapshot(first, now, os.settings, left, snapshot, right, gone);
        VanishKeeps(first, os.settings, left + right, gone, os.gone);
      } else if applied == Err(NotFound) && snapshot.target.role.WslHns? {
        KeepSnapshot(first, now, os.settings, left + [snapshot] + right, n, gone);
        VanishKeeps(first, os.settings, left + [snapshot] + right, gone, os.gone);
        DropSnapshot(first, os.settings, os.settings, left, snapshot, right, os.gone);
      } else {
        KeepSnapshot(first, now, os.settings, left + [snapshot] + right, n, gone);
        VanishKeeps(first, os.settings, left + [snapshot] + right, gone, os.gone);
        ReverseAppend(failed, snapshot);
        failed := failed + [snapshot];
        assert left + Reverse(failed) == left + [snapshot] + right;
      }
    }
    assert snapshots[..0] + Reverse(failed) == Reverse(failed) && snapshots[0..] == snapshots;
    record.snapshots := Reverse(failed);
    ReverseEmpty(failed);
    clean := failed == [];
  }

  lemma WhenFailed(s: Snapshot, call: PatchCall)
    ensures Failed(s, call) <==> call.outcome.Err? && !(call.outcome == Err(NotFound) && s.target.role.WslHns?)
  {
  }

  lemma NothingFailed(snapshots: seq<Snapshot>, patches: seq<PatchCall>)
    ensures snapshots[..|snapshots|] + Reverse([]) == snapshots
    ensures Untried(snapshots[..|snapshots|], patches[|patches|..])
    ensures Made(patches[|patches|..]) == Restores(snapshots[|snapshots|..])
    ensures Reverse([]) == Due(snapshots[|snapshots|..], patches[|patches|..])
  {
  }

  lemma UntouchedInterface(first: map<nat, Settings>, now: map<nat, Settings>, snapshots: seq<Snapshot>, gone: set<nat>, i: nat)
    requires Recoverable(first, now, snapshots, gone) && i < |snapshots| && snapshots[i].restore == NO_PATCH
    ensures var luid := snapshots[i].target.luid;
      luid in now && luid !in gone ==> luid in first && now[luid] == first[luid]
  {
    hide Recoverable;
    TheSnapshot(first, now, snapshots, gone, i);
  }

  lemma PatchReturns(first: map<nat, Settings>, now: map<nat, Settings>, snapshots: seq<Snapshot>, gone: set<nat>, i: nat)
    requires Recoverable(first, now, snapshots, gone) && i < |snapshots|
    ensures var luid := snapshots[i].target.luid;
      luid in now && luid !in gone ==> luid in first && Apply(now[luid], snapshots[i].restore) == first[luid]
  {
    hide Recoverable, Covered, PutsBack, Apply;
    TheSnapshot(first, now, snapshots, gone, i);
    var luid := snapshots[i].target.luid;
    if luid in now && luid !in gone {
      RestoreReturns(first[luid], now[luid], now[luid], snapshots[i].restore);
    }
  }

  /** `cleanup_transaction`. It reports success exactly when nothing is left to undo, and then all
      is as the session found it. A failure keeps just what could not be undone, for a retry. */
  method Cleanup(os: Os, record: InstallRecord, ghost origin: Origin) returns (ok: bool)
    requires Inv(origin, os, record)
    modifies os, record
    ensures Inv(origin, os, record)
    ensures old(os.gone) <= os.gone
    ensures ok <==> record.removed
    ensures ok ==> Restored(origin, record.tun, os)
    ensures os.faults >= old(os.faults) && (!ok ==> os.faults > old(os.faults))
    ensures old(record.removed) ==>
      && ok && os.table == old(os.table) && os.dns == old(os.dns) && os.settings == old(os.settings)
      && os.history == old(os.history)
    ensures exists deleted ::
      && record.owned == Except(old(record.owned), deleted)
      && os.table == old(os.table) - deleted
    ensures |old(os.patches)| <= |os.patches| && os.patches[..|old(os.patches)|] == old(os.patches)
    ensures Made(os.patches[|old(os.patches)|..]) == Restores(old(record.snapshots))
    ensures record.snapshots == Due(old(record.snapshots), os.patches[|old(os.patches)|..])
    ensures os.dnsCalls == old(os.dnsCalls) +
      if old(record.dnsChanged) then [DnsCall(record.tun, record.dnsBefore, !record.dnsChanged)] else []
    ensures record.dnsChanged ==> old(record.dnsChanged)
    ensures record.desired == old(record.desired)
  {
    hide Inv, RoutesOk, Recoverable, Except, Restores, Made, Due, Restored, Rows, Reverse, Deletions;
    InvParts(origin, os, record);
    if record.removed {
      ExceptNone(record.owned, {});
      assert record.owned == Except(record.owned, {}) && os.table == os.table - {};
      NothingFailed([], os.patches);
      NothingLeft(origin, os, record);
      return true;
    }
    var routesClean, deleted := CleanupRoutes(os, record, origin.table);
    if record.dnsChanged {
      var restored := os.SetDns(record.tun, record.dnsBefore);
      if restored {
        record.dnsChanged := false;
      }
    }
    var interfacesClean := CleanupInterfaces(os, record, origin.settings);
    ok := routesClean && !record.dnsChanged && interfacesClean;
    record.removed := ok;
    InvWhole(origin, os, record);
    if ok {
      NothingLeft(origin, os, record);
    }
  }

  lemma InvParts(origin: Origin, os: Os, record: InstallRecord)
    requires Inv(origin, os, record)
    ensures RoutesOk(origin.table, os, record) && Recoverable(origin.settings, os.settings, record.snapshots, os.gone)
    ensures record.dnsBefore == origin.dns && (!record.dnsChanged ==> DnsOf(os.dns, record.tun) == origin.dns)
    ensures record.removed ==> record.owned == [] && !record.dnsChanged && record.snapshots == []
  {
    hide RoutesOk, Recoverable;
  }

  lemma InvWhole(origin: Origin, os: Os, record: InstallRecord)
    requires RoutesOk(origin.table, os, record) && Recoverable(origin.settings, os.settings, record.snapshots, os.gone)
    requires record.dnsBefore == origin.dns && (!record.dnsChanged ==> DnsOf(os.dns, record.tun) == origin.dns)
    requires record.removed ==> record.owned == [] && !record.dnsChanged && record.snapshots == []
    ensures Inv(origin, os, record)
  {
    hide RoutesOk, Recoverable;
  }

  /** `rollback_after_setup_failure`: one retry. */
  method RollbackAfterSetupFailure(os: Os, record: InstallRecord, ghost origin: Origin) returns (clean: bool)
    requires Inv(origin, os, record)
    modifies os, record
    ensures Inv(origin, os, record)
    ensures clean ==> Restored(origin, record.tun, os)
    ensures os.faults >= old(os.faults) + if clean then 0 else 2
  {
    clean := Cleanup(os, record, origin);
    if !clean {
      clean := Cleanup(os, record, origin);
    }
  }

  // ---------------------------------------------------------------- install

  datatype Cidr = Cidr(first: Ip, length: nat)

  datatype Args = Args(bypass: seq<Cidr>, proxy: Ip, proxyIsPrivate: bool, gateway: Ip, captureV4: bool, gatewayText: string)

  function BypassRoute(cidr: Cidr, hop: Hop, luid: nat): Route {
    Route(cidr.first, cidr.length, hop, luid, BYPASS_ROUTE_METRIC)
  }

  predicate CidrContains(cidr: Cidr, ip: Ip) {
    Contains(BypassRoute(cidr, Hop(ip, 0), 0), ip)
  }

  /** The bypasses to install: those asked for, and a remote proxy that none of them covers. */
  function BypassCidrs(args: Args): (cidrs: seq<Cidr>)
    ensures forall cidr :: cidr in args.bypass ==> cidr in cidrs
    ensures !args.proxyIsPrivate ==> exists cidr :: cidr in cidrs && CidrContains(cidr, args.proxy)
    ensures cidrs != args.bypass ==>
      && cidrs == args.bypass + [Cidr(args.proxy, if args.proxy.v6 then 128 else 32)]
      && !args.proxyIsPrivate && forall cidr :: cidr in args.bypass ==> !CidrContains(cidr, args.proxy)
  {
    var host := Cidr(args.proxy, Bits(args.proxy.v6));
    if !args.proxyIsPrivate && !(exists cidr :: cidr in args.bypass && CidrContains(cidr, args.proxy)) then
      assert host in args.bypass + [host] && CidrContains(host, args.proxy);
      args.bypass + [host]
    else args.bypass
  }

  predicate TooBroad(cidr: Cidr) {
    !cidr.first.v6 && cidr.length <= 1
  }

  function CidrOf(route: Route): Cidr {
    Cidr(route.destination, route.prefix)
  }

  ghost function CidrsOf(routes: seq<Route>): set<Cidr> {
    set route | route in routes :: CidrOf(route)
  }

  ghost function Cidrs(cidrs: seq<Cidr>): set<Cidr> {
    set cidr | cidr in cidrs
  }

  /** One physical route for every bypass, each more specific than the capture routes. */
  ghost predicate PlannedFor(tun: nat, cidrs: seq<Cidr>, planned: seq<Route>) {
    && DesiredOk(tun, planned)
    && (forall r :: r in planned ==> r.destination.v6 || r.prefix > 1)
    && CidrsOf(planned) == Cidrs(cidrs)
  }

  lemma PlanStep(tun: nat, cidrs: seq<Cidr>, planned: seq<Route>, route: Route)
    requires PlannedFor(tun, cidrs, planned) && CidrOf(route) !in cidrs
    requires route.luid != tun && route.metric == BYPASS_ROUTE_METRIC && !TooBroad(CidrOf(route))
    ensures PlannedFor(tun, cidrs + [CidrOf(route)], planned + [route])
  {
    assert Cidrs(cidrs + [CidrOf(route)]) == Cidrs(cidrs) + {CidrOf(route)};
    assert CidrsOf(planned + [route]) == CidrsOf(planned) + {CidrOf(route)};
    forall i | 0 <= i < |planned|
      ensures !SamePrefix(planned[i], route)
    {
      assert planned[i] in planned && CidrOf(planned[i]) in CidrsOf(planned);
    }
  }

  lemma PlanRepeat(tun: nat, cidrs: seq<Cidr>, planned: seq<Route>, cidr: Cidr)
    requires PlannedFor(tun, cidrs, planned) && cidr in cidrs
    ensures PlannedFor(tun, cidrs + [cidr], planned)
  {
    assert Cidrs(cidrs + [cidr]) == Cidrs(cidrs);
  }

  /** A remote proxy always gets a way around the TUN. */
  lemma ProxyBypassed(tun: nat, args: Args, planned: seq<Route>)
    requires PlannedFor(tun, BypassCidrs(args), planned) && !args.proxyIsPrivate
    ensures exists r :: r in planned && r.luid != tun && Contains(r, args.proxy)
  {
    hide And, Mask;
    var cidr :| cidr in BypassCidrs(args) && CidrContains(cidr, args.proxy);
    assert cidr in Cidrs(BypassCidrs(args));
    var r :| r in planned && CidrOf(r) == cidr;
    assert Contains(r, args.proxy);
  }

  /** The bypasses in order, each once. */
  function Once(cidrs: seq<Cidr>): seq<Cidr> {
    if cidrs == [] then []
    else
      var front, last := cidrs[..|cidrs| - 1], cidrs[|cidrs| - 1];
      if last in front then Once(front) else Once(front) + [last]
  }

  function ProbeAddress(ip: Ip): Ip {
    if !IsUnspecified(ip) then ip
    else if ip.v6 then Ip(true, 0x2606_4700_4700_0000_0000_0000_0000_1111)
    else Ip(false, 0x0101_0101)
  }

  /** A probe is of the bypass's family and, unless that begins at the unspecified address, of its first
      address; otherwise it is 1.1.1.1 or 2606:4700:4700::1111, group by group. */
  lemma ProbeByGroups(ip: Ip)
    ensures ProbeAddress(ip).v6 == ip.v6 && (ip.value != 0 ==> ProbeAddress(ip) == ip)
    ensures ip.value == 0 && !ip.v6 ==>
      var probe := ProbeAddress(ip).value;
      probe / 0x100_0000 == 1 && probe / 0x1_0000 % 256 == 1 && probe / 0x100 % 256 == 1 && probe % 256 == 1
    ensures ip.value == 0 && ip.v6 ==>
      var probe := ProbeAddress(ip).value;
      && probe / 0x1_0000_0000_0000_0000_0000_0000_0000 == 0x2606
      && probe / 0x1_0000_0000_0000_0000_0000_0000 % 0x1_0000 == 0x4700
      && probe / 0x1_0000_0000_0000_0000_0000 % 0x1_0000 == 0x4700
      && probe % 0x1_0000_0000_0000_0000_0000 == 0x1111
  {
  }

  /** The probe found a way around the TUN. */
  predicate Usable(tun: nat, probe: Probe) {
    probe.answer.Ok? && probe.answer.value.0 != tun
  }

  /** The rows that usable probes lead to. */
  ghost predicate PlannedBy(tun: nat, cidrs: seq<Cidr>, log: seq<Probe>, planned: seq<Route>) {
    && |planned| <= |log| && |planned| <= |cidrs|
    && forall k :: 0 <= k < |planned| ==>
         && (cidrs[k].first.v6 || cidrs[k].length >= 2) && log[k].destination == ProbeAddress(cidrs[k].first) && Usable(tun, log[k])
         && planned[k].destination == cidrs[k].first && planned[k].prefix == cidrs[k].length
         && planned[k].hop == log[k].answer.value.1 && planned[k].luid == log[k].answer.value.0
  }

  /** Why planning stopped: a bypass as broad as a capture route, or a probe that failed or led back. */
  ghost predicate Blocked(tun: nat, cidrs: seq<Cidr>, log: seq<Probe>, done: nat) {
    && done < |cidrs|
    && if !cidrs[done].first.v6 && cidrs[done].length < 2 then |log| == done
       else |log| == done + 1 && log[done].destination == ProbeAddress(cidrs[done].first) && !Usable(tun, log[done])
  }

  lemma PlannedByStep(tun: nat, cidrs: seq<Cidr>, log: seq<Probe>, planned: seq<Route>, cidr: Cidr, probe: Probe)
    requires PlannedBy(tun, cidrs, log, planned) && |planned| == |log| == |cidrs| && !TooBroad(cidr)
    requires probe.destination == ProbeAddress(cidr.first) && Usable(tun, probe)
    ensures PlannedBy(tun, cidrs + [cidr], log + [probe], planned + [BypassRoute(cidr, probe.answer.value.1, probe.answer.value.0)])
  {
  }

  lemma {:induction false} OncePrefix(cidrs: seq<Cidr>, i: nat)
    requires i <= |cidrs|
    ensures Once(cidrs[..i]) <= Once(cidrs)
    decreases |cidrs|
  {
    if i < |cidrs| {
      OncePrefix(cidrs[..|cidrs| - 1], i);
      assert cidrs[..|cidrs| - 1][..i] == cidrs[..i];
    } else {
      assert cidrs[..i] == cidrs;
    }
  }

  lemma OnceStep(cidrs: seq<Cidr>, cidr: Cidr)
    ensures Once(cidrs + [cidr]) == if cidr in cidrs then Once(cidrs) else Once(cidrs) + [cidr]
  {
    assert (cidrs + [cidr])[..|cidrs|] == cidrs;
  }

  lemma StoppedAt(tun: nat, cidrs: seq<Cidr>, i: nat, log: seq<Probe>, planned: seq<Route>, more: seq<Probe>)
    requires i < |cidrs| && cidrs[i] !in cidrs[..i]
    requires PlannedBy(tun, Once(cidrs[..i]), log, planned) && |planned| == |log| == |Once(cidrs[..i])|
    requires more == if TooBroad(cidrs[i]) then log else more
    requires !TooBroad(cidrs[i]) ==>
      && |more| == |log| + 1 && more[..|log|] == log
      && more[|log|].destination == ProbeAddress(cidrs[i].first) && !Usable(tun, more[|log|])
    ensures PlannedBy(tun, Once(cidrs), more, planned) && Blocked(tun, Once(cidrs), more, |planned|)
  {
    hide Usable, ProbeAddress, Once;
    assert cidrs[..i + 1] == cidrs[..i] + [cidrs[i]];
    OnceStep(cidrs[..i], cidrs[i]);
    OncePrefix(cidrs, i + 1);
    var done, all := Once(cidrs[..i]), Once(cidrs);
    assert done + [cidrs[i]] <= all;
    assert forall k :: 0 <= k < |planned| ==> all[k] == done[k] && more[k] == log[k];
    assert all[|done|] == cidrs[i];
  }

  /** Finds the way out of every bypass before any route is added. Each bypass is probed once, in
      order, up to the first that must be refused. */
  method PlanBypasses(os: Os, cidrs: seq<Cidr>, tun: nat) returns (r: Result<seq<Route>, ()>)
    modifies os`faults, os`probes
    ensures os.faults >= old(os.faults)
    ensures |old(os.probes)| <= |os.probes| && os.probes[..|old(os.probes)|] == old(os.probes)
    ensures r.Ok? ==>
      && PlannedFor(tun, cidrs, r.value)
      && PlannedBy(tun, Once(cidrs), os.probes[|old(os.probes)|..], r.value)
      && |r.value| == |Once(cidrs)| == |os.probes| - |old(os.probes)|
    ensures r.Err? ==> exists planned ::
      && PlannedBy(tun, Once(cidrs), os.probes[|old(os.probes)|..], planned)
      && Blocked(tun, Once(cidrs), os.probes[|old(os.probes)|..], |planned|)
  {
    hide PlannedFor, PlannedBy, Blocked, Once, ProbeAddress, TooBroad;
    var planned: seq<Route> := [];
    ghost var from := |os.probes|;
    NothingPlanned(tun);
    assert cidrs[..0] == [] && os.probes[from..] == [];
    for i := 0 to |cidrs|
      invariant PlannedFor(tun, cidrs[..i], planned)
      invariant os.faults >= old(os.faults)
      invariant from <= |os.probes| && os.probes[..from] == old(os.probes)
      invariant PlannedBy(tun, Once(cidrs[..i]), os.probes[from..], planned)
      invariant |planned| == |os.probes[from..]| == |Once(cidrs[..i])|
    {
      var cidr := cidrs[i];
      ghost var log := os.probes[from..];
      assert cidrs[..i + 1] == cidrs[..i] + [cidr];
      OnceStep(cidrs[..i], cidr);
      if cidr in cidrs[..i] {
        PlanRepeat(tun, cidrs[..i], planned, cidr);
        continue;
      }
      if TooBroad(cidr) {
        StoppedAt(tun, cidrs, i, log, planned, log);
        return Err(());
      }
      var best := os.BestRoute(ProbeAddress(cidr.first));
      ghost var probe := Probe(ProbeAddress(cidr.first), best);
      assert os.probes[from..] == log + [probe];
      if best.Err? || best.value.0 == tun {
        StoppedAt(tun, cidrs, i, log, planned, log + [probe]);
        return Err(());
      }
      var (luid, hop) := best.value;
      PlanStep(tun, cidrs[..i], planned, BypassRoute(cidr, hop, luid));
      PlannedByStep(tun, Once(cidrs[..i]), log, planned, cidr, probe);
      planned := planned + [BypassRoute(cidr, hop, luid)];
    }
    assert cidrs[..|cidrs|] == cidrs;
    return Ok(planned);
  }

  lemma NothingPlanned(tun: nat)
    ensures PlannedFor(tun, [], []) && PlannedBy(tun, Once([]), [], []) && Once([]) == []
  {
  }

  datatype SetupError = Refused | RolledBack | Incomplete

  /** Creates the planned rows; only those created become owned. */
  method CreateRoutes(os: Os, record: InstallRecord, planned: seq<Route>, ghost initial: set<Route>) returns (ok: bool)
    requires RoutesOk(initial, os, record)
    requires forall r :: r in planned ==> r.luid != record.tun ==> r.metric == BYPASS_ROUTE_METRIC
    modifies os`table, os`history, os`faults, os`calls, record`owned
    ensures RoutesOk(initial, os, record)
    ensures ok ==> forall r :: r in planned ==> HasKey(os.table, KeyOf(r))
    ensures ok ==> PresentSince(os.history, |old(os.history)|, planned, |planned|)
    ensures ok ==> os.calls == old(os.calls) + Creations(planned)
    ensures if ok then os.faults == old(os.faults) else os.faults > old(os.faults)
  {
    hide Owns, HasKey, KeyOf, BypassMetric, Creations, PresentSince;
    NoCreations(os.calls, planned);
    NonePresent(os.history, |os.history|, planned);
    for i := 0 to |planned|
      invariant RoutesOk(initial, os, record)
      invariant forall k :: 0 <= k < i ==> HasKey(os.table, KeyOf(planned[k]))
      invariant os.faults == old(os.faults)
      invariant os.calls == old(os.calls) + Creations(planned[..i])
      invariant |os.history| == |old(os.history)| + i && PresentSince(os.history, |old(os.history)|, planned, i)
    {
      var route := planned[i];
      ghost var table := os.table;
      RowsNeverLost(initial, table, record.owned, os.history);
      KeysStay(table, route);
      CreationStep(old(os.calls), planned, i);
      var created := os.CreateRoute(route);
      if created.Err? {
        return false;
      }
      PresentStep(old(os.history), os.history[..|os.history| - 1], os.table, planned, i);
      if created == Ok(Created) {
        OwnsCreate(initial, table, record.owned, route);
        OwnedMetric(record.tun, record.owned, route);
        record.owned := record.owned + [route];
        RowsNeverLost(initial, os.table, record.owned, os.history[..|os.history| - 1]);
      }
    }
    assert planned[..|planned|] == planned;
    return true;
  }

  /** Each of the first `n` routes is in the table from its turn on. */
  ghost predicate PresentSince(history: seq<set<Route>>, from: nat, planned: seq<Route>, n: nat) {
    forall k, i :: 0 <= k < n && k < |planned| && from + k <= i < |history| ==> HasKey(history[i], KeyOf(planned[k]))
  }

  lemma NonePresent(history: seq<set<Route>>, from: nat, planned: seq<Route>)
    ensures PresentSince(history, from, planned, 0)
  {
  }

  lemma PresentStep(start: seq<set<Route>>, history: seq<set<Route>>, table: set<Route>, planned: seq<Route>, i: nat)
    requires i < |planned| && |history| == |start| + i && PresentSince(history, |start|, planned, i)
    requires forall k :: 0 <= k <= i ==> HasKey(table, KeyOf(planned[k]))
    ensures PresentSince(history + [table], |start|, planned, i + 1)
  {
    hide HasKey, KeyOf;
  }

  lemma BypassesHeld(history: seq<set<Route>>, tun: nat, planned: seq<Route>, more: seq<Route>)
    requires PresentSince(history, 0, planned + more, |planned + more|) && DesiredOk(tun, planned)
    ensures HeldThroughout(history, |planned|, tun, planned)
  {
    hide HasKey, KeyOf, SamePrefix, Held;
    forall i | |planned| <= i < |history|
      ensures Held(history[i], tun, planned)
    {
      forall d | d in planned
        ensures d.luid != tun && HasKey(history[i], KeyOf(d))
      {
        var k :| 0 <= k < |planned| && planned[k] == d;
        assert (planned + more)[k] == d;
      }
      HeldByKeys(history[i], tun, planned);
    }
  }

  lemma NoCreations(calls: seq<Call>, planned: seq<Route>)
    ensures calls + Creations(planned[..0]) == calls
  {
  }

  lemma CreationStep(calls: seq<Call>, planned: seq<Route>, i: nat)
    requires i < |planned|
    ensures calls + Creations(planned[..i]) + [Create(planned[i])] == calls + Creations(planned[..i + 1])
  {
  }

  lemma OwnedMetric(tun: nat, owned: seq<Route>, route: Route)
    requires BypassMetric(tun, owned) && (route.luid != tun ==> route.metric == BYPASS_ROUTE_METRIC)
    ensures BypassMetric(tun, owned + [route])
  {
  }

  /** Every bypass and capture route is in the table, and DNS and forwarding are switched over. */
  ghost predicate Installed(os: Os, record: InstallRecord, args: Args)
    reads os, record
  {
    && PlannedFor(record.tun, BypassCidrs(args), record.desired)
    && (forall route :: route in record.desired ==>
          HasRow(os.table, route.destination, route.prefix, route.hop, route.luid))
    && DnsOf(os.dns, record.tun) == Some(args.gatewayText)
    && (args.captureV4 ==>
          && HasRow(os.table, Ip(false, 0), 0, Hop(args.gateway, 0), record.tun)
          && HasRow(os.table, Ip(false, 0), 1, Hop(args.gateway, 0), record.tun)
          && HasRow(os.table, Ip(false, 0x8000_0000), 1, Hop(args.gateway, 0), record.tun)
          && Forwarding(os.settings, os.gone, record.tun, os.listing))
  }

  /** All bypasses come before the routes that capture traffic. */
  function PlannedRoutes(bypasses: seq<Route>, tun: nat, args: Args): seq<Route> {
    bypasses + (if args.captureV4 then CaptureRoutes(tun, args.gateway) else [])
  }

  /** Switches forwarding, routes and DNS over, in this order, up to the first failure. */
  method Activate(os: Os, record: InstallRecord, args: Args, ghost origin: Origin) returns (ok: bool)
    requires Inv(origin, os, record) && !record.removed && PlannedFor(record.tun, BypassCidrs(args), record.desired)
    modifies os, record
    ensures Inv(origin, os, record) && !record.removed
    ensures ok ==> Installed(os, record, args)
    ensures record.desired == old(record.desired) && os.probes == old(os.probes)
    ensures ok ==> os.calls == old(os.calls) + Creations(PlannedRoutes(record.desired, record.tun, args))
    ensures ok ==>
      var routes := PlannedRoutes(record.desired, record.tun, args); PresentSince(os.history, |old(os.history)|, routes, |routes|)
    ensures os.undeleted == old(os.undeleted)
    ensures os.faults >= old(os.faults) && (!ok ==> os.faults > old(os.faults))
  {
    hide Inv, PlannedFor, RoutesOk, Recoverable, HasKey, KeyOf, BypassCidrs, Creations, Forwarding, PresentSince;
    hide Installed, PlannedRoutes;
    InvParts(origin, os, record);
    if args.captureV4 {
      ok := ReconcileInterfaces(os, record, origin.settings);
      if !ok {
        InvWhole(origin, os, record);
        return;
      }
    }
    var planned := PlannedRoutes(record.desired, record.tun, args);
    PlannedMetric(record.tun, BypassCidrs(args), record.desired, args);
    ok := CreateRoutes(os, record, planned, origin.table);
    if !ok {
      InvWhole(origin, os, record);
      return;
    }
    record.dnsChanged := true;
    ok := os.SetDns(record.tun, Some(args.gatewayText));
    InvWhole(origin, os, record);
    if ok {
      InstalledWhole(os, record, args);
    }
  }

  lemma InstalledWhole(os: Os, record: InstallRecord, args: Args)
    requires PlannedFor(record.tun, BypassCidrs(args), record.desired) && DnsOf(os.dns, record.tun) == Some(args.gatewayText)
    requires forall r :: r in PlannedRoutes(record.desired, record.tun, args) ==> HasKey(os.table, KeyOf(r))
    requires args.captureV4 ==> Forwarding(os.settings, os.gone, record.tun, os.listing)
    ensures Installed(os, record, args)
  {
    hide PlannedFor, BypassCidrs, HasKey, HasRow, KeyOf, Forwarding;
    forall route | route in record.desired
      ensures HasRow(os.table, route.destination, route.prefix, route.hop, route.luid)
    {
      assert route in PlannedRoutes(record.desired, record.tun, args);
      KeyIsFields(os.table, route);
    }
    if args.captureV4 {
      CaptureRows(os.table, record.tun, args.gateway, record.desired);
    }
  }

  lemma CaptureRows(table: set<Route>, tun: nat, gateway: Ip, bypasses: seq<Route>)
    requires forall r :: r in bypasses + CaptureRoutes(tun, gateway) ==> HasKey(table, KeyOf(r))
    ensures HasRow(table, Ip(false, 0), 0, Hop(gateway, 0), tun)
    ensures HasRow(table, Ip(false, 0), 1, Hop(gateway, 0), tun)
    ensures HasRow(table, Ip(false, 0x8000_0000), 1, Hop(gateway, 0), tun)
  {
    hide HasKey, HasRow, KeyOf;
    var capture := CaptureRoutes(tun, gateway);
    assert forall i :: 0 <= i < 3 ==> capture[i] in bypasses + capture;
    KeyIsFields(table, capture[0]);
    KeyIsFields(table, capture[1]);
    KeyIsFields(table, capture[2]);
  }

  /** `install_transaction`: all or nothing. A refusal has changed nothing, and after a rollback all
      is as it was found; rows that were there before are never touched. */
  method Install(os: Os, args: Args)
    returns (r: Result<InstallRecord, SetupError>, ghost origin: Origin, ghost tun: nat)
    requires os.history == []
    modifies os
    ensures origin == Origin(old(os.table), DnsOf(old(os.dns), tun), old(os.settings))
    ensures NeverLost(origin.table, os.history) && origin.table <= os.table
    ensures r == Err(Refused) ==> os.table == old(os.table) && os.dns == old(os.dns) && os.settings == old(os.settings)
    ensures r == Err(RolledBack) ==> Restored(origin, tun, os)
    ensures os.faults >= old(os.faults) && (r == Err(RolledBack) ==> os.faults > old(os.faults))
    ensures r == Err(Incomplete) ==> os.faults >= old(os.faults) + 3
    ensures args.captureV4 && args.gateway.v6 ==> r == Err(Refused)
    ensures r == Err(Refused) && os.faults == old(os.faults) && !(args.captureV4 && args.gateway.v6) ==>
      |os.probes| >= |old(os.probes)| && exists planned ::
        && PlannedBy(tun, Once(BypassCidrs(args)), os.probes[|old(os.probes)|..], planned)
        && Blocked(tun, Once(BypassCidrs(args)), os.probes[|old(os.probes)|..], |planned|)
    ensures r.Ok? ==>
      && fresh(r.value) && r.value.tun == tun && Inv(origin, os, r.value) && !r.value.removed && Installed(os, r.value, args)
      && os.calls == old(os.calls) + Creations(PlannedRoutes(r.value.desired, tun, args))
      && |os.probes| >= |old(os.probes)| && |r.value.desired| == |Once(BypassCidrs(args))|
      && PlannedBy(tun, Once(BypassCidrs(args)), os.probes[|old(os.probes)|..], r.value.desired)
      && HeldThroughout(os.history, |r.value.desired|, tun, r.value.desired)
      && Held(os.table, tun, r.value.desired) && os.undeleted == old(os.undeleted)
  {
    hide PlannedFor, RoutesOk, Recoverable, HasKey, KeyOf, Restored, Installed, BypassCidrs, Creations, PlannedRoutes;
    hide PresentSince, Held, HeldThroughout, PlannedBy, Once;
    tun := 0;
    origin := Origin(os.table, DnsOf(os.dns, 0), os.settings);
    var luid := os.InterfaceLuid();
    if luid.Err? {
      return Err(Refused), origin, tun;
    }
    tun := luid.value;
    origin := Origin(os.table, DnsOf(os.dns, tun), os.settings);
    var dnsBefore := os.SnapshotDns(luid.value);
    if dnsBefore.Err? {
      return Err(Refused), origin, tun;
    }
    var bypasses := PlanBypasses(os, BypassCidrs(args), luid.value);
    if bypasses.Err? || (args.captureV4 && args.gateway.v6) {
      return Err(Refused), origin, tun;
    }
    var record := new InstallRecord(luid.value, dnsBefore.value, bypasses.value);
    StartsClean(origin, os, record, BypassCidrs(args));
    var ok := Activate(os, record, args, origin);
    NeverTouched(origin, os, record);
    if ok {
      InstalledHeld(os, record, args);
      return Ok(record), origin, tun;
    }
    var clean := RollbackAfterSetupFailure(os, record, origin);
    NeverTouched(origin, os, record);
    return Err(if clean then RolledBack else Incomplete), origin, tun;
  }

  lemma InstalledHeld(os: Os, record: InstallRecord, args: Args)
    requires Installed(os, record, args)
    requires var routes := PlannedRoutes(record.desired, record.tun, args); PresentSince(os.history, 0, routes, |routes|)
    ensures HeldThroughout(os.history, |record.desired|, record.tun, record.desired)
    ensures Held(os.table, record.tun, record.desired)
  {
    hide HasKey, HasRow, KeyOf, Held, HeldThroughout, PresentSince;
    BypassesHeld(os.history, record.tun, record.desired, if args.captureV4 then CaptureRoutes(record.tun, args.gateway) else []);
    forall d | d in record.desired
      ensures d.luid != record.tun && HasKey(os.table, KeyOf(d))
    {
      KeyIsFields(os.table, d);
    }
    HeldByKeys(os.table, record.tun, record.desired);
  }

  lemma NeverTouched(origin: Origin, os: Os, record: InstallRecord)
    requires RoutesOk(origin.table, os, record)
    ensures NeverLost(origin.table, os.history) && origin.table <= os.table
  {
  }

  lemma StartsClean(origin: Origin, os: Os, record: InstallRecord, cidrs: seq<Cidr>)
    requires os.table == origin.table && os.settings == origin.settings && os.history == []
    requires record.owned == [] && record.snapshots == [] && PlannedFor(record.tun, cidrs, record.desired)
    ensures RoutesOk(origin.table, os, record)
    ensures Recoverable(origin.settings, os.settings, record.snapshots, os.gone)
  {
    assert Rows([]) == {};
  }

  lemma PlannedMetric(tun: nat, cidrs: seq<Cidr>, planned: seq<Route>, args: Args)
    requires PlannedFor(tun, cidrs, planned)
    ensures forall r :: r in PlannedRoutes(planned, tun, args) && r.luid != tun ==> r.metric == BYPASS_ROUTE_METRIC
  {
  }

  // ---------------------------------------------------------------- the monitor

  datatype Command = Prepare(addresses: seq<Ip>, expired: bool) | Commit | Rollback | Tick

  /** The monitor's own state: an update waiting for its decision, and rows still to be rolled back. */
  datatype Updates = Updates(pending: Option<Prepared>, rollback: seq<Route>)

  ghost predicate UpdatesOk(initial: set<Route>, tun: nat, updates: Updates) {
    && Provisional(initial, tun, updates.rollback)
    && (updates.pending.Some? ==>
          Provisional(initial, tun, updates.pending.value.added) && HostRoutes(tun, updates.pending.value.desired))
  }

  ghost function Added(updates: Updates): seq<Route> {
    if updates.pending.Some? then updates.pending.value.added else []
  }

  /** Each desired bypass has a way out other than the rows that are, or may be, rolled back; and an
      update is pending only while no rollback is. */
  ghost predicate Barred(table: set<Route>, tun: nat, desired: seq<Route>, updates: Updates) {
    && Held(table - Rows(updates.rollback) - Rows(Added(updates)), tun, desired)
    && (updates.pending.Some? ==> updates.rollback == [] && Held(table, tun, updates.pending.value.desired))
  }

  /** The rows a command tries to delete for good. */
  ghost function Retried(command: Command, updates: Updates): seq<Route> {
    match command
    case Prepare(_, expired) => if expired then [] else updates.rollback
    case Commit => []
    case Rollback => updates.rollback + Added(updates)
    case Tick => updates.rollback
  }

  method RetryRollback(os: Os, record: InstallRecord, updates: Updates, ghost origin: Origin) returns (next: Updates)
    requires Inv(origin, os, record) && !record.removed && UpdatesOk(origin.table, record.tun, updates)
    modifies os`table, os`history, os`faults, os`undeleted, os`calls, record`owned
    ensures Inv(origin, os, record) && UpdatesOk(origin.table, record.tun, next)
    ensures next.pending == updates.pending
    ensures os.faults >= old(os.faults) && (next.rollback == [] <==> os.faults == old(os.faults))
    ensures os.undeleted >= old(os.undeleted) && (next.rollback == [] <==> os.undeleted == old(os.undeleted))
    ensures forall row :: row in next.rollback ==> row in updates.rollback
    ensures forall row :: row in updates.rollback ==> row in next.rollback || row !in os.table
    ensures forall row :: row in old(os.table) && row !in updates.rollback ==> row in os.table
    ensures os.table <= old(os.table)
    ensures os.table - Rows(next.rollback) == old(os.table) - Rows(updates.rollback)
    ensures next.rollback == [] ==> record.owned == Except(old(record.owned), Rows(updates.rollback))
    ensures |old(os.history)| <= |os.history| && os.history[..|old(os.history)|] == old(os.history)
    ensures Above(old(os.table) - Rows(updates.rollback), os.history, |old(os.history)|)
    ensures GuardedIfSpared(record.tun, old(os.table), os.history, |old(os.history)|, os.table, updates.rollback, next.rollback == [])
    ensures updates.rollback == [] ==> os.table == old(os.table) && next == updates
  {
    hide RoutesOk, Recoverable, Provisional, HostRoutes, Except, Above, GuardedIfSpared;
    var rest, deleted := RollbackUpstream(os, record, updates.rollback, origin.table);
    ProvisionalSubset(origin.table, record.tun, updates.rollback, rest);
    next := updates.(rollback := rest);
  }

  /** What one command or tick promises about ways around the TUN. */
  ghost predicate KeepsWays(
    tun: nat, before: set<Route>, was: seq<Route>, updates: Updates, history: seq<set<Route>>, from: nat,
    after: set<Route>, desired: seq<Route>, next: Updates, late: bool)
  {
    Barred(before, tun, was, updates) ==>
      && HeldThroughout(history, from, tun, was) && Held(after, tun, desired)
      && (!late ==> Barred(after, tun, desired, next))
  }

  lemma RollbackKeepsWays(
    tun: nat, before: set<Route>, desired: seq<Route>, updates: Updates, queued: Updates,
    history: seq<set<Route>>, from: nat, after: set<Route>, next: Updates)
    requires queued.pending.None? && queued.rollback == updates.rollback + Added(updates) && next.pending.None?
    requires Above(before - Rows(queued.rollback), history, from)
    requires after - Rows(next.rollback) == before - Rows(queued.rollback)
    ensures KeepsWays(tun, before, desired, updates, history, from, after, desired, next, false)
  {
    hide Held, Above, HeldThroughout;
    if Barred(before, tun, desired, updates) {
      var floor := before - Rows(updates.rollback) - Rows(Added(updates));
      assert floor == before - Rows(queued.rollback);
      HeldAbove(floor, history, from, tun, desired);
      HeldMore(floor, after, tun, desired);
      assert after - Rows(next.rollback) - Rows(Added(next)) == floor;
    }
  }

  lemma PrepareKeepsWays(
    tun: nat, before: set<Route>, desired: seq<Route>, updates: Updates, history: seq<set<Route>>, from: nat, middle: nat,
    now: set<Route>, after: set<Route>, update: Prepared)
    requires from <= middle <= |history| && Above(before - Rows(updates.rollback), history[..middle], from)
    requires now == before - Rows(updates.rollback) && after == now + Rows(update.added)
    requires forall r :: r in update.added ==> r !in now
    requires Trail(tun, now, history, middle) && Guarded(tun, now, after) && Held(after, tun, update.desired)
    ensures KeepsWays(tun, before, desired, updates, history, from, after, desired, Updates(Some(update), []), false)
  {
    hide Held, Above, HeldThroughout, Guarded, Trail;
    if Barred(before, tun, desired, updates) {
      HeldMore(now - Rows(Added(updates)), now, tun, desired);
      HeldAbove(now, history[..middle], from, tun, desired);
      HeldTrail(now, history, middle, tun, desired);
      HeldJoins(history, from, middle, tun, desired);
      HeldGuarded(now, after, tun, desired);
      assert after - Rows([]) - Rows(update.added) == now;
    }
  }

  lemma RetryKeepsWays(
    tun: nat, before: set<Route>, desired: seq<Route>, updates: Updates,
    history: seq<set<Route>>, from: nat, after: set<Route>, next: Updates)
    requires Above(before - Rows(updates.rollback), history, from) && next.pending == updates.pending
    requires after - Rows(next.rollback) == before - Rows(updates.rollback)
    requires updates.rollback == [] ==> after == before && next == updates
    ensures KeepsWays(tun, before, desired, updates, history, from, after, desired, next, false)
  {
    hide Held, Above, HeldThroughout;
    if Barred(before, tun, desired, updates) {
      var floor := before - Rows(updates.rollback);
      HeldMore(floor - Rows(Added(updates)), floor, tun, desired);
      HeldAbove(floor, history, from, tun, desired);
      HeldMore(floor, after, tun, desired);
      assert after - Rows(next.rollback) - Rows(Added(next)) == floor - Rows(Added(updates));
    }
  }

  lemma RefreshKeepsWays(
    tun: nat, before: set<Route>, was: seq<Route>, updates: Updates, history: seq<set<Route>>, from: nat, middle: nat,
    now: set<Route>, after: set<Route>, desired: seq<Route>, next: Updates)
    requires from <= middle <= |history| && next.pending.None?
    requires KeepsWays(tun, before, was, updates, history[..middle], from, now, was, next, false)
    requires Trail(tun, now, history, middle) && Guarded(tun, now, after)
    requires |desired| == |was| && forall i :: 0 <= i < |was| ==> SamePrefix(was[i], desired[i])
    ensures KeepsWays(tun, before, was, updates, history, from, after, desired, next, next.rollback != [])
  {
    hide Held, HeldThroughout, Guarded, Trail;
    if Barred(before, tun, was, updates) {
      HeldTrail(now, history, middle, tun, was);
      HeldJoins(history, from, middle, tun, was);
      HeldGuarded(now, after, tun, was);
      HeldMoved(after, tun, was, desired);
      assert next.rollback == [] ==> after - Rows(next.rollback) - Rows(Added(next)) == after;
    }
  }

  lemma CommitKeepsWays(
    tun: nat, table: set<Route>, was: seq<Route>, updates: Updates, history: seq<set<Route>>, desired: seq<Route>, next: Updates)
    requires next == updates.(pending := None)
    requires forall d :: d in desired ==> d in was || (updates.pending.Some? && d in updates.pending.value.desired)
    ensures KeepsWays(tun, table, was, updates, history, |history|, table, desired, next, false)
  {
    if Barred(table, tun, was, updates) {
      HeldMore(table - Rows(updates.rollback) - Rows(Added(updates)), table, tun, was);
      if updates.pending.Some? {
        assert table - Rows(next.rollback) - Rows(Added(next)) == table;
      }
    }
  }

  lemma NothingRetried(tun: nat, table: set<Route>, history: seq<set<Route>>)
    ensures GuardedIfSpared(tun, table, history, |history|, table, [], true)
    ensures GuardedIfSpared(tun, table, history, |history|, table, [], false)
  {
    GuardedSame(tun, table);
    TrailStarts(tun, table, history);
  }

  /** A prepare request whose sender still waits. */
  method HandlePrepare(os: Os, record: InstallRecord, addresses: seq<Ip>, updates: Updates, ghost origin: Origin)
    returns (next: Updates, ok: bool)
    requires Inv(origin, os, record) && !record.removed && UpdatesOk(origin.table, record.tun, updates)
    modifies os`table, os`history, os`faults, os`undeleted, os`calls, os`scan, record`owned
    ensures Inv(origin, os, record) && UpdatesOk(origin.table, record.tun, next)
    ensures if next.rollback == [] then next.pending.Some? && forall row :: row in next.pending.value.added ==> row in record.owned
            else next.pending == updates.pending && !ok
    ensures os.faults >= old(os.faults) && os.undeleted >= old(os.undeleted)
    ensures next.rollback == [] <==> os.undeleted == old(os.undeleted)
    ensures forall row :: row in next.rollback ==> row in updates.rollback
    ensures ok ==> next.pending.Some? && Reachable(os.table, record.tun, addresses, next.pending.value.desired)
    ensures os.faults == old(os.faults) ==>
      (ok <==> !Unreachable(os.scan, addresses, record.tun, Except(old(record.owned), Rows(updates.rollback))))
    ensures forall row :: row in old(os.table) && row !in updates.rollback ==> row in os.table
    ensures os.table <= old(os.table) + (if next.pending.Some? then Rows(next.pending.value.added) else {})
    ensures |old(os.history)| <= |os.history| && os.history[..|old(os.history)|] == old(os.history)
    ensures GuardedIfSpared(record.tun, old(os.table), os.history, |old(os.history)|, os.table, updates.rollback, next.rollback == [])
    ensures KeepsWays(
      record.tun, old(os.table), record.desired, updates, os.history, |old(os.history)|, os.table, record.desired, next, false)
  {
    hide Owns, NeverLost, BypassMetric, DesiredOk, Recoverable, Provisional, HostRoutes, NeedsRoute, Trail, Guarded;
    hide HasKey;
    hide KeepsWays, GuardedIfSpared, Above, Except, Unreachable, Reachable, AllRouted;
    ghost var before, from := os.table, |os.history|;
    next := RetryRollback(os, record, updates, origin);
    RetryKeepsWays(record.tun, before, record.desired, updates, os.history, from, os.table, next);
    if next.rollback != [] {
      return next, false;
    }
    ghost var now, middle, owned := os.table, |os.history|, record.owned;
    var update;
    ok, update := AddUpstream(os, record, addresses, origin.table);
    AddedApart(origin.table, now, owned, os.table, update.added);
    UpdateHeld(os.table, record.tun, addresses, update.desired);
    assert os.history[..middle][..from] == os.history[..from];
    GuardedAfter(record.tun, before, now, os.table, os.history, from, middle, updates.rollback, true);
    PrepareKeepsWays(record.tun, before, record.desired, updates, os.history, from, middle, now, os.table, update);
    next := Updates(Some(update), []);
    if ok {
      AllReached(os.scan, os.table, record.tun, addresses, owned, update.desired);
    }
  }

  /** Each address that needs a route has one around the TUN among the update's. */
  ghost predicate Reachable(table: set<Route>, tun: nat, addresses: seq<Ip>, desired: seq<Route>) {
    forall ip :: ip in addresses && NeedsRoute(ip) ==> Reaches(table, tun, desired, ip)
  }

  ghost predicate Reaches(table: set<Route>, tun: nat, desired: seq<Route>, ip: Ip) {
    exists r :: r in desired && r.destination == ip && r.luid != tun && HasRow(table, ip, r.prefix, r.hop, r.luid)
  }

  lemma UpdateHeld(table: set<Route>, tun: nat, addresses: seq<Ip>, desired: seq<Route>)
    requires HostRoutes(tun, desired) && forall r :: r in desired ==> HasKey(table, KeyOf(r)) && r.destination in addresses
    ensures Held(table, tun, desired)
  {
    HeldByKeys(table, tun, desired);
  }

  lemma AllReached(scan: seq<Scanned>, table: set<Route>, tun: nat, addresses: seq<Ip>, owned: seq<Route>, desired: seq<Route>)
    requires HostRoutes(tun, desired) && forall r :: r in desired ==> HasKey(table, KeyOf(r))
    requires AllRouted(scan, addresses, tun, owned, desired)
    ensures Reachable(table, tun, addresses, desired)
  {
    hide HasKey, KeyOf, BestWay, NeedsRoute;
    forall ip | ip in addresses && NeedsRoute(ip)
      ensures Reaches(table, tun, desired, ip)
    {
      assert RoutedBy(scan, ip, tun, owned, desired);
      var physical :| BestWay(scan, ip, tun, owned, physical)
        && Route(ip, if ip.v6 then 128 else 32, physical.hop, physical.luid, BYPASS_ROUTE_METRIC) in desired;
      var r := Route(ip, if ip.v6 then 128 else 32, physical.hop, physical.luid, BYPASS_ROUTE_METRIC);
      KeyIsFields(table, r);
      assert r in desired && r.destination == ip;
    }
  }

  method HandleRollback(os: Os, record: InstallRecord, updates: Updates, ghost origin: Origin) returns (next: Updates)
    requires Inv(origin, os, record) && !record.removed && UpdatesOk(origin.table, record.tun, updates)
    modifies os`table, os`history, os`faults, os`undeleted, os`calls, record`owned
    ensures Inv(origin, os, record) && UpdatesOk(origin.table, record.tun, next)
    ensures next.pending.None?
    ensures forall row :: row in updates.rollback + Added(updates) ==> row in next.rollback || row !in os.table
    ensures forall row :: row in next.rollback ==> row in updates.rollback + Added(updates)
    ensures forall row :: row in old(os.table) && row !in updates.rollback + Added(updates) ==> row in os.table
    ensures os.table <= old(os.table)
    ensures os.faults >= old(os.faults) && os.undeleted >= old(os.undeleted)
    ensures next.rollback == [] <==> os.undeleted == old(os.undeleted)
    ensures |old(os.history)| <= |os.history| && os.history[..|old(os.history)|] == old(os.history)
    ensures GuardedIfSpared(
      record.tun, old(os.table), os.history, |old(os.history)|, os.table, updates.rollback + Added(updates), next.rollback == [])
    ensures KeepsWays(
      record.tun, old(os.table), record.desired, updates, os.history, |old(os.history)|, os.table, record.desired, next, false)
  {
    hide Inv, Provisional, HostRoutes, KeepsWays, GuardedIfSpared, Above, Except;
    var queued := updates;
    if updates.pending.Some? {
      ProvisionalAppend(origin.table, record.tun, updates.rollback, updates.pending.value.added);
      queued := Updates(None, updates.rollback + updates.pending.value.added);
    }
    assert queued.rollback == updates.rollback + Added(updates);
    ghost var before, from := os.table, |os.history|;
    next := RetryRollback(os, record, queued, origin);
    RollbackKeepsWays(record.tun, before, record.desired, updates, queued, os.history, from, os.table, next);
  }

  /** A timer tick. Physical routes are not refreshed while an update is pending. */
  method HandleTick(os: Os, record: InstallRecord, updates: Updates, ghost origin: Origin) returns (next: Updates)
    requires Inv(origin, os, record) && !record.removed && UpdatesOk(origin.table, record.tun, updates)
    modifies os`table, os`history, os`faults, os`undeleted, os`calls, os`scan, record`owned, record`desired
    modifies os`settings, os`gone, os`listing, os`patches, record`snapshots
    ensures Inv(origin, os, record) && UpdatesOk(origin.table, record.tun, next)
    ensures next.pending == updates.pending
    ensures updates.pending.Some? ==> record.desired == old(record.desired)
    ensures os.faults >= old(os.faults) && os.undeleted >= old(os.undeleted)
    ensures os.undeleted == old(os.undeleted) ==> next.rollback == []
    ensures forall row :: row in next.rollback ==> row in updates.rollback
    ensures PrefixesKept(old(record.desired), record.desired)
    ensures os.faults == old(os.faults) ==> Forwarding(os.settings, os.gone, record.tun, os.listing)
    ensures os.faults == old(os.faults) && updates.pending.None? ==>
      Refreshed(os.scan, record.tun, Except(old(record.owned), Rows(updates.rollback)), os.table, old(record.desired), record.desired)
    ensures |old(os.history)| <= |os.history| && os.history[..|old(os.history)|] == old(os.history)
    ensures GuardedIfSpared(record.tun, old(os.table), os.history, |old(os.history)|, os.table, updates.rollback, next.rollback == [])
    ensures KeepsWays(
      record.tun, old(os.table), old(record.desired), updates, os.history, |old(os.history)|, os.table, record.desired, next,
      updates.pending.None? && next.rollback != [])
  {
    hide Owns, NeverLost, BypassMetric, DesiredOk, Recoverable, Provisional, HostRoutes, Trail, Guarded, Went, Turns;
    hide Unnested, SamePrefix, Forwarding;
    hide KeepsWays, GuardedIfSpared, Above, Except, PrefixesKept;
    ghost var before, from, was := os.table, |os.history|, record.desired;
    var forwarding := ReconcileInterfaces(os, record, origin.settings);
    next := RetryRollback(os, record, updates, origin);
    RetryKeepsWays(record.tun, before, was, updates, os.history, from, os.table, next);
    SamePrefixesKept(was);
    if next.pending.None? {
      ghost var now, middle, owned := os.table, |os.history|, record.owned;
      var refreshed, _ := ReconcileBypassRoutes(os, record, origin.table);
      assert os.history[..middle][..from] == os.history[..from];
      GuardedAfter(record.tun, before, now, os.table, os.history, from, middle, updates.rollback, next.rollback == []);
      RefreshKeepsWays(record.tun, before, was, updates, os.history, from, middle, now, os.table, record.desired, next);
      MovesKeepPrefixes(was, record.desired);
    }
  }

  /** Every bypass that no earlier one contains goes the best physical way. */
  ghost predicate Refreshed(
    scan: seq<Scanned>, tun: nat, owned: seq<Route>, table: set<Route>, was: seq<Route>, desired: seq<Route>)
  {
    && |desired| == |was|
    && forall i :: 0 <= i < |was| && Unnested(was, i) ==> Went(scan, tun, owned, table, was[i], desired[i])
  }

  /** A tick that refreshes the bypasses while a rolled-back row is still there. */
  ghost predicate LateRefresh(command: Command, updates: Updates, next: Updates) {
    command.Tick? && updates.pending.None? && next.rollback != []
  }

  ghost predicate Late(commands: seq<Command>, trace: seq<Updates>) {
    exists i :: 0 <= i < |commands| && i + 1 < |trace| && LateRefresh(commands[i], trace[i], trace[i + 1])
  }

  /** How a command moves the monitor's own state. */
  ghost predicate Advances(command: Command, updates: Updates, next: Updates) {
    && (forall row :: row in next.rollback ==> row in updates.rollback + Added(updates))
    && match command
       case Prepare(_, expired) =>
         && (expired ==> next == updates)
         && (if expired || next.rollback != [] then next.pending == updates.pending else next.pending.Some?)
       case Commit => next == updates.(pending := None)
       case Rollback => next.pending.None?
       case Tick => next.pending == updates.pending
  }

  ghost predicate Moves(commands: seq<Command>, trace: seq<Updates>) {
    && |trace| == |commands| + 1 && trace[0] == Updates(None, [])
    && forall i :: 0 <= i < |commands| ==> Advances(commands[i], trace[i], trace[i + 1])
  }

  lemma MovesStep(commands: seq<Command>, i: nat, trace: seq<Updates>, next: Updates)
    requires i < |commands| && Moves(commands[..i], trace) && Advances(commands[i], trace[i], next)
    ensures Moves(commands[..i + 1], trace + [next])
    ensures Late(commands[..i + 1], trace + [next]) <==> Late(commands[..i], trace) || LateRefresh(commands[i], trace[i], next)
  {
    hide Advances, LateRefresh;
    var more, longer := commands[..i + 1], trace + [next];
    forall k | 0 <= k <= i
      ensures Advances(more[k], longer[k], longer[k + 1])
    {
      assert k < i ==> more[k] == commands[..i][k] && longer[k] == trace[k] && longer[k + 1] == trace[k + 1];
    }
    if Late(commands[..i], trace) {
      var k :| 0 <= k < i && LateRefresh(commands[..i][k], trace[k], trace[k + 1]);
      assert LateRefresh(more[k], longer[k], longer[k + 1]);
    }
    if LateRefresh(commands[i], trace[i], next) {
      assert LateRefresh(more[i], longer[i], longer[i + 1]);
    }
    if Late(more, longer) {
      var k :| 0 <= k <= i && LateRefresh(more[k], longer[k], longer[k + 1]);
      assert k < i ==> LateRefresh(commands[..i][k], trace[k], trace[k + 1]);
    }
  }

  /** One command or timer tick, with the answer to a prepare request. Rows of updates that were rolled
      back but could not be deleted are retried, and a new update waits for them. */
  method Handle(os: Os, record: InstallRecord, command: Command, updates: Updates, ghost origin: Origin)
    returns (next: Updates, reply: Option<bool>)
    requires Inv(origin, os, record) && !record.removed && UpdatesOk(origin.table, record.tun, updates)
    modifies os, record
    ensures Inv(origin, os, record) && !record.removed && UpdatesOk(origin.table, record.tun, next)
    ensures os.faults >= old(os.faults)
    ensures command.Prepare? || command.Rollback? ==> record.desired == old(record.desired)
    ensures next.pending.Some? && !command.Prepare? ==> record.desired == old(record.desired)
    ensures reply.Some? <==> command.Prepare? && !command.expired
    ensures reply == Some(true) ==>
      next.rollback == [] && next.pending.Some? && Reachable(os.table, record.tun, command.addresses, next.pending.value.desired)
    ensures reply.Some? && os.faults == old(os.faults) ==>
      (reply.value <==> !Unreachable(os.scan, command.addresses, record.tun, Except(old(record.owned), Rows(updates.rollback))))
    ensures command.Prepare? && command.expired ==> next == updates && os.calls == old(os.calls) && os.table == old(os.table)
    ensures command.Prepare? && !command.expired ==>
      if next.rollback == [] then next.pending.Some? && forall row :: row in next.pending.value.added ==> row in record.owned
      else next.pending == updates.pending
    ensures command.Commit? ==> next == updates.(pending := None) && os.calls == old(os.calls) && os.table == old(os.table)
    ensures command.Commit? && updates.pending.Some? ==>
      forall r :: r in updates.pending.value.desired ==> Covers(record.desired, updates.pending.value.desired, r)
    ensures command.Rollback? ==> next.pending.None? && os.table <= old(os.table)
    ensures command.Rollback? ==>
      forall row :: row in Retried(command, updates) ==> row in next.rollback || row !in os.table
    ensures !command.Tick? ==> forall row :: row in old(os.table) && row !in Retried(command, updates) ==> row in os.table
    ensures command.Tick? ==> next.pending == updates.pending
    ensures command.Tick? && os.faults == old(os.faults) ==> Forwarding(os.settings, os.gone, record.tun, os.listing)
    ensures command.Tick? && os.faults == old(os.faults) && updates.pending.None? ==>
      Refreshed(os.scan, record.tun, Except(old(record.owned), Rows(updates.rollback)), os.table, old(record.desired), record.desired)
    ensures Advances(command, updates, next)
    ensures os.undeleted >= old(os.undeleted)
    ensures os.undeleted == old(os.undeleted) && (updates.rollback == [] || command.Tick?) ==> next.rollback == []
    ensures PrefixesKept(old(record.desired), record.desired)
    ensures |old(os.history)| <= |os.history| && os.history[..|old(os.history)|] == old(os.history)
    ensures GuardedIfSpared(
      record.tun, old(os.table), os.history, |old(os.history)|, os.table, Retried(command, updates), next.rollback == [])
    ensures KeepsWays(
      record.tun, old(os.table), old(record.desired), updates, os.history, |old(os.history)|, os.table, record.desired, next,
      LateRefresh(command, updates, next))
  {
    hide Owns, NeverLost, BypassMetric, DesiredOk, Recoverable, Provisional, HostRoutes, Covers, KeepsWays;
    hide GuardedIfSpared, Except, Unreachable, Reachable, PrefixesKept, Refreshed, Forwarding;
    next, reply := updates, None;
    SamePrefixesKept(record.desired);
    NothingRetried(record.tun, os.table, os.history);
    match command
    case Prepare(addresses, expired) =>
      if expired {
        ExpiredKeepsWays(record.tun, os.table, record.desired, updates, os.history);
      } else {
        var ok;
        next, ok := HandlePrepare(os, record, addresses, updates, origin);
        reply := Some(ok);
      }
    case Commit =>
      ghost var was := record.desired;
      if updates.pending.Some? {
        CommitUpstream(record, updates.pending.value);
        next := updates.(pending := None);
      }
      CommitKeepsWays(record.tun, os.table, was, updates, os.history, record.desired, next);
    case Rollback =>
      next := HandleRollback(os, record, updates, origin);
    case Tick =>
      next := HandleTick(os, record, updates, origin);
  }

  lemma ExpiredKeepsWays(tun: nat, table: set<Route>, desired: seq<Route>, updates: Updates, history: seq<set<Route>>)
    ensures KeepsWays(tun, table, desired, updates, history, |history|, table, desired, updates, false)
  {
    if Barred(table, tun, desired, updates) {
      HeldMore(table - Rows(updates.rollback) - Rows(Added(updates)), table, tun, desired);
    }
  }

  /** The monitor thread over any sequence of commands and ticks; `trace` holds its own state before
      each of them and after the last. Unless a refresh runs while a rolled-back row is still there,
      every bypass it starts with has a way around the TUN at every state of the table, whatever fails;
      and that can happen only if a deletion fails. */
  method Monitor(os: Os, record: InstallRecord, commands: seq<Command>, ghost origin: Origin) returns (ghost trace: seq<Updates>)
    requires Inv(origin, os, record) && !record.removed
    modifies os, record
    ensures Inv(origin, os, record) && !record.removed
    ensures |old(os.history)| <= |os.history| && os.history[..|old(os.history)|] == old(os.history)
    ensures Moves(commands, trace)
    ensures os.faults >= old(os.faults)
    ensures os.undeleted >= old(os.undeleted) && (Late(commands, trace) ==> os.undeleted > old(os.undeleted))
    ensures PrefixesKept(old(record.desired), record.desired)
    ensures Held(old(os.table), record.tun, old(record.desired)) && !Late(commands, trace) ==>
      && HeldThroughout(os.history, |old(os.history)|, record.tun, old(record.desired))
      && Held(os.table, record.tun, record.desired)
  {
    hide Inv, UpdatesOk, Held, HeldThroughout, PrefixesKept, KeepsWays, GuardedIfSpared, Retried, Covers, Reachable;
    hide Unreachable, Refreshed, Forwarding, Barred, Moves, Late;
    var updates := Updates(None, []);
    NothingPending(origin.table, record.tun, os.table, record.desired);
    ghost var from, first := |os.history|, record.desired;
    NoStatesYet(os.history, record.tun, first);
    SamePrefixesKept(first);
    trace := [updates];
    NoMoves(commands[..0], trace);
    for i := 0 to |commands|
      invariant Inv(origin, os, record) && !record.removed
      invariant UpdatesOk(origin.table, record.tun, updates)
      invariant from <= |os.history| && os.history[..from] == old(os.history)
      invariant |trace| == i + 1 && trace[i] == updates && Moves(commands[..i], trace)
      invariant os.faults >= old(os.faults) && os.undeleted >= old(os.undeleted) && PrefixesKept(first, record.desired)
      invariant os.undeleted == old(os.undeleted) ==> updates.rollback == [] && !Late(commands[..i], trace)
      invariant Held(old(os.table), record.tun, first) && !Late(commands[..i], trace) ==>
        HeldThroughout(os.history, from, record.tun, first) && Barred(os.table, record.tun, record.desired, updates)
    {
      ghost var table, desired, waiting, states := os.table, record.desired, updates, os.history;
      var reply;
      updates, reply := Handle(os, record, commands[i], updates, origin);
      assert os.history[..|states|][..from] == os.history[..from];
      PrefixesKeptTransitive(first, desired, record.desired);
      MovesStep(commands, i, trace, updates);
      trace := trace + [updates];
      if Held(old(os.table), record.tun, first) && !Late(commands[..i + 1], trace) {
        WaysKept(record.tun, table, desired, waiting, os.history, |states|, os.table, record.desired, updates, first, from);
      }
    }
    assert commands[..|commands|] == commands;
    if Held(old(os.table), record.tun, first) && !Late(commands, trace) {
      BarredHeld(os.table, record.tun, record.desired, updates);
    }
  }

  lemma NoMoves(commands: seq<Command>, trace: seq<Updates>)
    requires commands == [] && trace == [Updates(None, [])]
    ensures Moves(commands, trace) && !Late(commands, trace)
  {
  }

  lemma BarredHeld(table: set<Route>, tun: nat, desired: seq<Route>, updates: Updates)
    requires Barred(table, tun, desired, updates)
    ensures Held(table, tun, desired)
  {
    HeldMore(table - Rows(updates.rollback) - Rows(Added(updates)), table, tun, desired);
  }

  lemma NothingPending(initial: set<Route>, tun: nat, table: set<Route>, desired: seq<Route>)
    ensures UpdatesOk(initial, tun, Updates(None, []))
    ensures Held(table, tun, desired) ==> Barred(table, tun, desired, Updates(None, []))
  {
    assert table - Rows([]) - Rows([]) == table;
  }

  lemma NoStatesYet(history: seq<set<Route>>, tun: nat, desired: seq<Route>)
    ensures HeldThroughout(history, |history|, tun, desired)
  {
  }

  lemma WaysKept(
    tun: nat, before: set<Route>, was: seq<Route>, updates: Updates, history: seq<set<Route>>, middle: nat,
    after: set<Route>, desired: seq<Route>, next: Updates, first: seq<Route>, from: nat)
    requires from <= middle <= |history| && Barred(before, tun, was, updates)
    requires KeepsWays(tun, before, was, updates, history, middle, after, desired, next, false)
    requires PrefixesKept(first, was) && HeldThroughout(history[..middle], from, tun, first)
    ensures HeldThroughout(history, from, tun, first) && Barred(after, tun, desired, next)
  {
    hide Held, PrefixesKept, Barred;
    forall i | middle <= i < |history|
      ensures Held(history[i], tun, first)
    {
      HeldByPrefix(history[i], tun, first, was);
    }
    HeldJoins(history, from, middle, tun, first);
  }

  lemma ProvisionalSubset(initial: set<Route>, tun: nat, routes: seq<Route>, rest: seq<Route>)
    requires Provisional(initial, tun, routes) && forall r :: r in rest ==> r in routes
    ensures Provisional(initial, tun, rest)
  {
  }

  lemma ProvisionalAppend(initial: set<Route>, tun: nat, left: seq<Route>, right: seq<Route>)
    requires Provisional(initial, tun, left) && Provisional(initial, tun, right)
    ensures Provisional(initial, tun, left + right)
  {
  }

  // ---------------------------------------------------------------- the whole session

  /** Install, then the monitor; if its thread cannot be started, all is rolled back. From the moment
      the bypasses are in the table, before any route that captures traffic, every bypass asked for has
      a way around the TUN at every state, whatever the commands are and whatever fails, unless a refresh
      runs while a rolled-back row is still there. */
  method Operate(os: Os, args: Args, commands: seq<Command>, threadStarts: bool)
    returns (
      r: Result<InstallRecord, SetupError>, ghost origin: Origin, ghost tun: nat, ghost planned: seq<Route>, ghost trace: seq<Updates>)
    requires os.history == []
    modifies os
    ensures origin == Origin(old(os.table), DnsOf(old(os.dns), tun), old(os.settings))
    ensures NeverLost(origin.table, os.history) && origin.table <= os.table
    ensures r.Err? && r.error != Incomplete ==> Restored(origin, tun, os)
    ensures os.faults >= old(os.faults) + if r == Err(Incomplete) then 2 else 0
    ensures args.captureV4 && !threadStarts ==> r.Err?
    ensures r == Err(RolledBack) && threadStarts ==> os.faults > old(os.faults)
    ensures r.Ok? ==> fresh(r.value) && r.value.tun == tun && Inv(origin, os, r.value) && !r.value.removed
    ensures r.Ok? ==> PlannedFor(tun, BypassCidrs(args), planned)
    ensures r.Ok? && args.captureV4 ==> Moves(commands, trace)
    ensures r.Ok? && Late(commands, trace) ==> args.captureV4 && os.undeleted > old(os.undeleted)
    ensures r.Ok? && !Late(commands, trace) ==> HeldThroughout(os.history, |planned|, tun, planned)
  {
    hide RoutesOk, Recoverable, PlannedFor, HasKey, NeverLost, Held, HeldThroughout, BypassCidrs, PrefixesKept;
    hide Creations, PlannedBy, Blocked, Once, Installed, PlannedRoutes, Moves, Late;
    r, origin, tun := Install(os, args);
    planned, trace := [], [];
    if r.Err? {
      if r.error == Refused {
        assert Restored(origin, tun, os);
      }
      return;
    }
    var record := r.value;
    planned := record.desired;
    PlanInstalled(os, record, args, commands);
    if args.captureV4 {
      if !threadStarts {
        var clean := RollbackAfterSetupFailure(os, record, origin);
        NeverTouched(origin, os, record);
        return Err(if clean then RolledBack else Incomplete), origin, tun, planned, trace;
      }
      ghost var states := os.history;
      trace := Monitor(os, record, commands, origin);
      if !Late(commands, trace) {
        HeldFrom(os.history, |planned|, |states|, tun, planned);
      }
    }
    NeverTouched(origin, os, record);
  }

  lemma PlanInstalled(os: Os, record: InstallRecord, args: Args, commands: seq<Command>)
    requires Installed(os, record, args)
    ensures PlannedFor(record.tun, BypassCidrs(args), record.desired) && !Late(commands, [])
  {
    hide PlannedFor, BypassCidrs;
  }

  lemma HeldFrom(history: seq<set<Route>>, from: nat, middle: nat, tun: nat, desired: seq<Route>)
    requires middle <= |history|
    requires HeldThroughout(history[..middle], from, tun, desired) && HeldThroughout(history, middle, tun, desired)
    ensures HeldThroughout(history, from, tun, desired)
  {
    hide Held;
    assert forall i :: 0 <= i < middle ==> history[..middle][i] == history[i];
  }

  /** A session from install to teardown, with any live updates and any failures. At every state of
      the table all rows found at the start are there; and once setup is refused or rolled back, or
      some attempt at teardown succeeds, everything is as it was found, vanished interfaces aside. It is
      not only if a call failed in every attempt. */
  method Session(os: Os, args: Args, commands: seq<Command>, threadStarts: bool, attempts: nat)
    returns (undone: bool, ghost origin: Origin, ghost tun: nat, ghost ran: bool)
    requires os.history == []
    modifies os
    ensures origin == Origin(old(os.table), DnsOf(old(os.dns), tun), old(os.settings))
    ensures NeverLost(old(os.table), os.history) && old(os.table) <= os.table
    ensures undone ==> Restored(origin, tun, os)
    ensures !undone ==> os.faults >= old(os.faults) + if ran then attempts else 2
    ensures args.captureV4 && !threadStarts ==> !ran
  {
    hide RoutesOk, Recoverable, PlannedFor, HeldThroughout, NeverLost, Restored, Moves, Late;
    var operated;
    ghost var planned, trace;
    operated, origin, tun, planned, trace := Operate(os, args, commands, threadStarts);
    ran := operated.Ok?;
    if operated.Err? {
      undone := operated.error != Incomplete;
      return;
    }
    var record := operated.value;
    undone := false;
    var attempt := 0;
    while attempt < attempts && !undone
      invariant Inv(origin, os, record)
      invariant fresh(record)
      invariant undone ==> Restored(origin, tun, os)
      invariant attempt <= attempts && (!undone ==> os.faults >= old(os.faults) + attempt)
    {
      undone := Cleanup(os, record, origin);
      attempt := attempt + 1;
    }
    NeverTouched(origin, os, record);
  }
}
