/** The life of one TUN session's network configuration: install, live bypass updates, route
    refresh and cleanup (src/windows_network_config.rs).
 */
module RouteSession {
  import opened Base
  import opened Addresses
  import opened Routing
  import opened NetworkOs

  // ---------------------------------------------------------------- ownership

  ghost function Rows(owned: seq<Route>): set<Route> {
    set route | route in owned
  }

  ghost predicate DistinctKeys(owned: seq<Route>) {
    forall i, j :: 0 <= i < j < |owned| ==> KeyOf(owned[i]) != KeyOf(owned[j])
  }

  ghost predicate Apart(initial: set<Route>, owned: seq<Route>) {
    forall route, row :: route in owned && row in initial ==> KeyOf(route) != KeyOf(row)
  }

  /** The table is what the session found plus what it owns, and the two do not overlap. */
  ghost predicate Owns(initial: set<Route>, table: set<Route>, owned: seq<Route>) {
    table == initial + Rows(owned) && DistinctKeys(owned) && Apart(initial, owned)
  }

  /** `retain`: the routes that are not among the deleted ones, in order. */
  function Except(routes: seq<Route>, deleted: set<Route>): seq<Route> {
    if routes == [] then []
    else Except(routes[..|routes| - 1], deleted) + Kept(routes[|routes| - 1], deleted)
  }

  function Kept(route: Route, deleted: set<Route>): seq<Route> {
    if route in deleted then [] else [route]
  }

  lemma ExceptStep(routes: seq<Route>, route: Route, deleted: set<Route>)
    ensures Except(routes + [route], deleted) == Except(routes, deleted) + Kept(route, deleted)
  {
    assert (routes + [route])[..|routes|] == routes;
  }

  lemma {:induction false} ExceptMembers(routes: seq<Route>, deleted: set<Route>)
    ensures forall r :: r in Except(routes, deleted) <==> r in routes && r !in deleted
  {
    if routes != [] {
      ExceptMembers(routes[..|routes| - 1], deleted);
    }
  }

  lemma OwnsCreate(initial: set<Route>, table: set<Route>, owned: seq<Route>, route: Route)
    requires Owns(initial, table, owned) && !HasKey(table, KeyOf(route))
    ensures Owns(initial, table + {route}, owned + [route])
    ensures route !in owned
  {
    assert Rows(owned + [route]) == Rows(owned) + {route};
    forall row | row in initial || row in owned
      ensures KeyOf(row) != KeyOf(route)
    {
      assert row in table;
    }
  }

  lemma {:induction false} ExceptDistinct(owned: seq<Route>, deleted: set<Route>)
    requires DistinctKeys(owned)
    ensures DistinctKeys(Except(owned, deleted))
  {
    hide KeyOf;
    if owned != [] {
      var front, last := owned[..|owned| - 1], owned[|owned| - 1];
      ExceptDistinct(front, deleted);
      ExceptMembers(front, deleted);
      assert owned == front + [last];
      DistinctAppend(front, Except(front, deleted), last);
    }
  }

  lemma DistinctAppend(front: seq<Route>, rest: seq<Route>, last: Route)
    requires DistinctKeys(front + [last]) && DistinctKeys(rest)
    requires forall r :: r in rest ==> r in front
    ensures DistinctKeys(rest + [last]) && DistinctKeys(rest + [])
  {
    forall i | 0 <= i < |rest|
      ensures KeyOf(rest[i]) != KeyOf(last)
    {
      assert rest[i] in front;
      var k :| 0 <= k < |front| && front[k] == rest[i];
      assert (front + [last])[k] == rest[i] && (front + [last])[|front|] == last;
    }
  }

  /** Deleting an owned row, or a row with nobody's key, keeps the books right. */
  lemma OwnsDelete(initial: set<Route>, table: set<Route>, owned: seq<Route>, route: Route)
    requires Owns(initial, table, owned) && !HasKey(initial, KeyOf(route))
    requires forall o :: o in owned && KeyOf(o) == KeyOf(route) ==> o == route
    ensures Owns(initial, WithoutKey(table, KeyOf(route)), Except(owned, {route}))
    ensures WithoutKey(table, KeyOf(route)) == table - {route}
  {
    hide Except;
    ExceptDistinct(owned, {route});
    ExceptMembers(owned, {route});
    forall row | row in table && KeyOf(row) == KeyOf(route)
      ensures row == route
    {
      assert row in initial ==> HasKey(initial, KeyOf(route));
    }
    assert route !in initial by { assert route in initial ==> HasKey(initial, KeyOf(route)); }
  }

  lemma NotInitial(initial: set<Route>, table: set<Route>, owned: seq<Route>, route: Route)
    requires Owns(initial, table, owned) && route in owned
    ensures !HasKey(initial, KeyOf(route))
    ensures forall o :: o in owned && KeyOf(o) == KeyOf(route) ==> o == route
  {
    var i :| 0 <= i < |owned| && owned[i] == route;
    forall o | o in owned && KeyOf(o) == KeyOf(route)
      ensures o == route
    {
      var j :| 0 <= j < |owned| && owned[j] == o;
    }
  }

  // ---------------------------------------------------------------- the loop barrier

  predicate SamePrefix(a: Route, b: Route) {
    a.destination == b.destination && a.prefix == b.prefix
  }

  ghost predicate HasBarrier(table: set<Route>, tun: nat, route: Route) {
    exists row :: row in table && row.luid != tun && SamePrefix(row, route)
  }

  /** No row on the TUN has come or gone, and every prefix that had another way out still has one. */
  ghost predicate Guarded(tun: nat, before: set<Route>, after: set<Route>) {
    && (forall row: Route :: row.luid == tun ==> (row in before <==> row in after))
    && (forall route :: HasBarrier(before, tun, route) ==> HasBarrier(after, tun, route))
  }

  lemma GuardedTransitive(tun: nat, a: set<Route>, b: set<Route>, c: set<Route>)
    requires Guarded(tun, a, b) && Guarded(tun, b, c)
    ensures Guarded(tun, a, c)
  {
  }

  lemma GuardedAdd(tun: nat, table: set<Route>, route: Route)
    requires route.luid != tun
    ensures Guarded(tun, table, table + {route})
  {
    forall r | HasBarrier(table, tun, r)
      ensures HasBarrier(table + {route}, tun, r)
    {
      var row :| row in table && row.luid != tun && SamePrefix(row, r);
      assert row in table + {route};
    }
  }

  lemma GuardedDelete(tun: nat, table: set<Route>, route: Route, keep: Route)
    requires route.luid != tun && keep.luid != tun && keep in table && keep != route && SamePrefix(keep, route)
    ensures Guarded(tun, table, table - {route})
  {
    forall r | HasBarrier(table, tun, r)
      ensures HasBarrier(table - {route}, tun, r)
    {
      var row :| row in table && row.luid != tun && SamePrefix(row, r);
      assert (if row == route then keep else row) in table - {route};
    }
  }

  /** Deleting `routes` leaves each of their prefixes another way around the TUN. */
  ghost predicate Spares(tun: nat, table: set<Route>, routes: seq<Route>) {
    forall r :: r in routes && r in table ==> HasBarrier(table - Rows(routes), tun, r)
  }

  lemma SparesGuards(tun: nat, table: set<Route>, routes: seq<Route>, deleted: set<Route>)
    requires Spares(tun, table, routes) && deleted <= Rows(routes)
    requires forall r :: r in routes ==> r.luid != tun
    ensures Guarded(tun, table, table - deleted)
  {
    forall route | HasBarrier(table, tun, route)
      ensures HasBarrier(table - deleted, tun, route)
    {
      var row :| row in table && row.luid != tun && SamePrefix(row, route);
      if row in deleted {
        var other :| other in table - Rows(routes) && other.luid != tun && SamePrefix(other, row);
        assert other in table - deleted;
      } else {
        assert row in table - deleted;
      }
    }
  }

  /** Once all of `routes` are deleted, no prefix has lost its way out if and only if they spare one. */
  lemma GuardedIffSpared(tun: nat, table: set<Route>, routes: seq<Route>)
    requires forall r :: r in routes ==> r.luid != tun
    ensures Guarded(tun, table, table - Rows(routes)) <==> Spares(tun, table, routes)
  {
    if Spares(tun, table, routes) {
      SparesGuards(tun, table, routes, Rows(routes));
    } else {
      var r :| r in routes && r in table && !HasBarrier(table - Rows(routes), tun, r);
      assert HasBarrier(table, tun, r);
    }
  }

  /** And for one prefix: it keeps its way out if and only if some row for it is not deleted. */
  lemma BarrierSurvives(tun: nat, table: set<Route>, routes: seq<Route>, route: Route)
    ensures HasBarrier(table - Rows(routes), tun, route) <==>
      exists row :: row in table && row.luid != tun && SamePrefix(row, route) && row !in routes
  {
    if HasBarrier(table - Rows(routes), tun, route) {
      var row :| row in table - Rows(routes) && row.luid != tun && SamePrefix(row, route);
      assert row !in routes;
    }
    if row :| row in table && row.luid != tun && SamePrefix(row, route) && row !in routes {
      assert row in table - Rows(routes);
    }
  }

  /** Every desired bypass has a way around the TUN. */
  ghost predicate Held(table: set<Route>, tun: nat, desired: seq<Route>) {
    forall d :: d in desired ==> HasBarrier(table, tun, d)
  }

  ghost predicate HeldThroughout(history: seq<set<Route>>, from: nat, tun: nat, desired: seq<Route>) {
    forall i :: from <= i < |history| ==> Held(history[i], tun, desired)
  }

  lemma HeldMore(table: set<Route>, more: set<Route>, tun: nat, desired: seq<Route>)
    requires Held(table, tun, desired) && table <= more
    ensures Held(more, tun, desired)
  {
    forall d | d in desired
      ensures HasBarrier(more, tun, d)
    {
      assert HasBarrier(table, tun, d);
      var row :| row in table && row.luid != tun && SamePrefix(row, d);
      assert row in more;
    }
  }

  lemma HeldGuarded(before: set<Route>, after: set<Route>, tun: nat, desired: seq<Route>)
    requires Held(before, tun, desired) && Guarded(tun, before, after)
    ensures Held(after, tun, desired)
  {
  }

  lemma HeldMoved(table: set<Route>, tun: nat, desired: seq<Route>, moved: seq<Route>)
    requires Held(table, tun, desired) && |moved| == |desired|
    requires forall i :: 0 <= i < |moved| ==> SamePrefix(desired[i], moved[i])
    ensures Held(table, tun, moved)
  {
    forall d | d in moved
      ensures HasBarrier(table, tun, d)
    {
      var i :| 0 <= i < |moved| && moved[i] == d;
      assert desired[i] in desired && HasBarrier(table, tun, desired[i]);
      var row :| row in table && row.luid != tun && SamePrefix(row, desired[i]);
      assert SamePrefix(row, d);
    }
  }

  lemma HeldByKeys(table: set<Route>, tun: nat, desired: seq<Route>)
    requires forall d :: d in desired ==> d.luid != tun && HasKey(table, KeyOf(d))
    ensures Held(table, tun, desired)
  {
    forall d | d in desired
      ensures HasBarrier(table, tun, d)
    {
      var row :| row in table && KeyOf(row) == KeyOf(d);
      assert row.luid != tun && SamePrefix(row, d);
    }
  }

  // ---------------------------------------------------------------- lists of routes

  lemma ExceptNothing(deleted: set<Route>)
    ensures Except([], deleted) == []
  {
  }

  lemma {:induction false} ExceptAppend(left: seq<Route>, right: seq<Route>, deleted: set<Route>)
    ensures Except(left + right, deleted) == Except(left, deleted) + Except(right, deleted)
    decreases |right|
  {
    hide Except, Kept;
    if right == [] {
      assert left + right == left;
      ExceptNothing(deleted);
      assert Except(left, deleted) + [] == Except(left, deleted);
    } else {
      var front, last := right[..|right| - 1], right[|right| - 1];
      assert right == front + [last];
      assert left + right == left + front + [last];
      ExceptAppend(left, front, deleted);
      ExceptStep(left + front, last, deleted);
      ExceptStep(front, last, deleted);
      assert Except(left, deleted) + Except(front, deleted) + Kept(last, deleted)
          == Except(left, deleted) + (Except(front, deleted) + Kept(last, deleted));
    }
  }

  lemma {:induction false} ExceptNone(routes: seq<Route>, deleted: set<Route>)
    requires forall r :: r in routes ==> r !in deleted
    ensures Except(routes, deleted) == routes
  {
    if routes != [] {
      hide Except;
      var front, last := routes[..|routes| - 1], routes[|routes| - 1];
      assert routes == front + [last];
      ExceptNone(front, deleted);
      ExceptStep(front, last, deleted);
    }
  }

  lemma ExceptAll(routes: seq<Route>, deleted: set<Route>)
    requires forall r :: r in routes ==> r in deleted
    ensures Except(routes, deleted) == []
  {
    ExceptMembers(routes, deleted);
    if Except(routes, deleted) != [] {
      assert Except(routes, deleted)[0] in Except(routes, deleted);
    }
  }

  lemma {:induction false} ExceptTwice(routes: seq<Route>, one: set<Route>, two: set<Route>)
    ensures Except(Except(routes, one), two) == Except(routes, one + two)
  {
    if routes != [] {
      var front, last := routes[..|routes| - 1], routes[|routes| - 1];
      ExceptTwice(front, one, two);
      ExceptAppend(Except(front, one), Kept(last, one), two);
      assert Except([last], two) == Kept(last, two);
    }
  }

  function Remove(routes: seq<Route>, i: nat): seq<Route>
    requires i < |routes|
  {
    routes[..i] + routes[i + 1..]
  }

  lemma OccursOnce(routes: seq<Route>, i: nat)
    requires DistinctKeys(routes) && i < |routes|
    ensures routes[i] !in routes[..i] && routes[i] !in routes[i + 1..]
  {
  }

  lemma RemoveIsExcept(routes: seq<Route>, i: nat)
    requires DistinctKeys(routes) && i < |routes|
    ensures Remove(routes, i) == Except(routes, {routes[i]})
  {
    hide Except, KeyOf, DistinctKeys;
    var route, left, right := routes[i], routes[..i], routes[i + 1..];
    OccursOnce(routes, i);
    assert routes == left + ([route] + right);
    ExceptAppend(left, [route] + right, {route});
    ExceptAppend([route], right, {route});
    ExceptNone(left, {route});
    ExceptNone(right, {route});
    ExceptAll([route], {route});
    assert [] + right == right;
  }

  // ---------------------------------------------------------------- the session's routes

  /** Bypass rows carry one metric, so that their key identifies them. */
  ghost predicate BypassMetric(tun: nat, routes: seq<Route>) {
    forall r :: r in routes && r.luid != tun ==> r.metric == BYPASS_ROUTE_METRIC
  }

  ghost predicate DesiredOk(tun: nat, desired: seq<Route>) {
    && (forall d :: d in desired ==> d.luid != tun && d.metric == BYPASS_ROUTE_METRIC)
    && (forall i, j :: 0 <= i < j < |desired| ==> !SamePrefix(desired[i], desired[j]))
  }

  ghost predicate NeverLost(initial: set<Route>, history: seq<set<Route>>) {
    forall i :: 0 <= i < |history| ==> initial <= history[i]
  }

  class InstallRecord {
    const tun: nat
    var dnsBefore: Dns
    var dnsChanged: bool
    var owned: seq<Route>
    var desired: seq<Route>
    var snapshots: seq<Snapshot>
    var removed: bool

    constructor (tun: nat, dnsBefore: Dns, desired: seq<Route>)
      ensures this.tun == tun && this.dnsBefore == dnsBefore && this.desired == desired
      ensures !dnsChanged && owned == [] && snapshots == [] && !removed
    {
      this.tun := tun;
      this.dnsBefore := dnsBefore;
      this.desired := desired;
      dnsChanged, owned, snapshots, removed := false, [], [], false;
    }
  }

  /** What one interface looked like, and what to put back. */
  datatype Snapshot = Snapshot(target: Target, before: Settings, restore: Patch)

  ghost predicate RoutesOk(initial: set<Route>, os: Os, record: InstallRecord)
    reads os`table, os`history, record`owned, record`desired
  {
    && Owns(initial, os.table, record.owned)
    && NeverLost(initial, os.history)
    && BypassMetric(record.tun, record.owned)
    && DesiredOk(record.tun, record.desired)
  }

  /** Rows a prepared update created, to be deleted if it is rolled back. */
  ghost predicate Provisional(initial: set<Route>, tun: nat, routes: seq<Route>) {
    forall r :: r in routes ==>
      r.luid != tun && r.metric == BYPASS_ROUTE_METRIC && !HasKey(initial, KeyOf(r))
  }

  lemma SameKeySameRoute(tun: nat, owned: seq<Route>, route: Route)
    requires BypassMetric(tun, owned) && route.luid != tun && route.metric == BYPASS_ROUTE_METRIC
    ensures forall o :: o in owned && KeyOf(o) == KeyOf(route) ==> o == route
  {
  }

  lemma RowsNeverLost(initial: set<Route>, table: set<Route>, owned: seq<Route>, history: seq<set<Route>>)
    requires Owns(initial, table, owned) && NeverLost(initial, history)
    ensures NeverLost(initial, history + [table])
  {
  }

  /** Every table state since position `from` is guarded. */
  ghost predicate Trail(tun: nat, before: set<Route>, history: seq<set<Route>>, from: nat) {
    forall i :: from <= i < |history| ==> Guarded(tun, before, history[i])
  }

  lemma TrailAppend(tun: nat, before: set<Route>, next: set<Route>, history: seq<set<Route>>, from: nat)
    requires Trail(tun, before, history, from) && Guarded(tun, before, next)
    ensures Trail(tun, before, history + [next], from)
  {
  }

  lemma TrailLast(tun: nat, before: set<Route>, history: seq<set<Route>>, from: nat)
    requires from < |history| && Trail(tun, before, history, from)
    ensures Guarded(tun, before, history[|history| - 1])
  {
  }

  /** No table state since position `from` lacks a row of the floor. */
  ghost predicate Above(floor: set<Route>, history: seq<set<Route>>, from: nat) {
    forall i :: from <= i < |history| ==> floor <= history[i]
  }

  lemma AboveStarts(floor: set<Route>, history: seq<set<Route>>)
    ensures Above(floor, history, |history|)
  {
  }

  lemma AboveAppend(floor: set<Route>, next: set<Route>, history: seq<set<Route>>, from: nat)
    requires Above(floor, history, from) && floor <= next
    ensures Above(floor, history + [next], from)
  {
  }

  lemma HeldAbove(floor: set<Route>, history: seq<set<Route>>, from: nat, tun: nat, desired: seq<Route>)
    requires Held(floor, tun, desired) && Above(floor, history, from)
    ensures HeldThroughout(history, from, tun, desired)
  {
    hide Held;
    forall i | from <= i < |history|
      ensures Held(history[i], tun, desired)
    {
      HeldMore(floor, history[i], tun, desired);
    }
  }

  lemma HeldTrail(before: set<Route>, history: seq<set<Route>>, from: nat, tun: nat, desired: seq<Route>)
    requires Held(before, tun, desired) && Trail(tun, before, history, from)
    ensures HeldThroughout(history, from, tun, desired)
  {
    hide Held, Guarded;
    forall i | from <= i < |history|
      ensures Held(history[i], tun, desired)
    {
      HeldGuarded(before, history[i], tun, desired);
    }
  }

  lemma HeldJoins(history: seq<set<Route>>, from: nat, middle: nat, tun: nat, desired: seq<Route>)
    requires from <= middle <= |history|
    requires HeldThroughout(history[..middle], from, tun, desired) && HeldThroughout(history, middle, tun, desired)
    ensures HeldThroughout(history, from, tun, desired)
  {
    hide Held;
    assert forall i :: from <= i < middle ==> history[..middle][i] == history[i];
  }

  /** Deleting `retried` guards every state if they spare each prefix a way out; and, once all of them
      are deleted, only if they do. */
  ghost predicate GuardedIfSpared(
    tun: nat, before: set<Route>, history: seq<set<Route>>, from: nat, after: set<Route>, retried: seq<Route>, complete: bool)
  {
    && (Spares(tun, before, retried) ==> Trail(tun, before, history, from) && Guarded(tun, before, after))
    && (complete ==> (Trail(tun, before, history, from) <==> Spares(tun, before, retried)))
  }

  /** Guarded steps may follow. */
  lemma GuardedAfter(
    tun: nat, before: set<Route>, now: set<Route>, after: set<Route>,
    history: seq<set<Route>>, from: nat, middle: nat, retried: seq<Route>, complete: bool)
    requires from <= middle <= |history|
    requires GuardedIfSpared(tun, before, history[..middle], from, now, retried, complete)
    requires Trail(tun, now, history, middle) && Guarded(tun, now, after)
    ensures GuardedIfSpared(tun, before, history, from, after, retried, complete)
  {
    hide Guarded, Spares;
    if Spares(tun, before, retried) {
      TrailJoins(tun, before, now, history, from, middle);
      GuardedTransitive(tun, before, now, after);
    }
    assert forall i :: from <= i < middle ==> history[..middle][i] == history[i];
  }

  /** Rolls an update back. Only rows of the update are deleted; those that could not be are kept
      for a retry, and stay owned. */
  method RollbackUpstream(os: Os, record: InstallRecord, routes: seq<Route>, ghost initial: set<Route>)
    returns (rest: seq<Route>, ghost deleted: set<Route>)
    requires RoutesOk(initial, os, record) && Provisional(initial, record.tun, routes)
    modifies os`table, os`history, os`faults, os`undeleted, os`calls, record`owned
    ensures RoutesOk(initial, os, record)
    ensures deleted <= Rows(routes)
    ensures |rest| <= |routes| && forall r :: r in rest ==> r in routes
    ensures forall r :: r in routes ==> r in rest || r in deleted
    ensures record.owned == Except(old(record.owned), deleted)
    ensures os.table == old(os.table) - deleted
    ensures if rest == [] then os.faults == old(os.faults) else os.faults > old(os.faults)
    ensures rest == [] ==> deleted == Rows(routes)
    ensures if rest == [] then os.undeleted == old(os.undeleted) else os.undeleted > old(os.undeleted)
    ensures Above(old(os.table) - Rows(routes), os.history, |old(os.history)|)
    ensures |old(os.history)| <= |os.history| && os.history[..|old(os.history)|] == old(os.history)
    ensures GuardedIfSpared(record.tun, old(os.table), os.history, |old(os.history)|, os.table, routes, rest == [])
  {
    hide Owns, Except, HasKey, WithoutKey, KeyOf, Spares, Guarded, Trail, Above;
    rest, deleted := [], {};
    ghost var before, from := os.table, |os.history|;
    ExceptNone(record.owned, {});
    TrailStarts(record.tun, before, os.history);
    AboveStarts(before - Rows(routes), os.history);
    for i := 0 to |routes|
      invariant RoutesOk(initial, os, record)
      invariant Above(before - Rows(routes), os.history, from)
      invariant if rest == [] then os.undeleted == old(os.undeleted) else os.undeleted > old(os.undeleted)
      invariant deleted <= Rows(routes)
      invariant |rest| <= i && forall r :: r in rest ==> r in routes
      invariant forall j :: 0 <= j < i ==> routes[j] in rest || routes[j] in deleted
      invariant record.owned == Except(old(record.owned), deleted)
      invariant os.table == before - deleted
      invariant if rest == [] then os.faults == old(os.faults) else os.faults > old(os.faults)
      invariant |os.history| == from + i && os.history[..from] == old(os.history)
      invariant i > 0 ==> os.history[|os.history| - 1] == os.table
      invariant Spares(record.tun, before, routes) ==> Trail(record.tun, before, os.history, from)
    {
      var route := routes[i];
      SameKeySameRoute(record.tun, record.owned, route);
      OwnsDelete(initial, os.table, record.owned, route);
      RowsNeverLost(initial, os.table, record.owned, os.history);
      RowsNeverLost(initial, WithoutKey(os.table, KeyOf(route)), Except(record.owned, {route}), os.history);
      ExceptTwice(old(record.owned), deleted, {route});
      ExceptMembers(record.owned, {route});
      assert before - deleted - {route} == before - (deleted + {route});
      if Spares(record.tun, before, routes) {
        SparesGuards(record.tun, before, routes, deleted);
        SparesGuards(record.tun, before, routes, deleted + {route});
        TrailAppend(record.tun, before, before - deleted, os.history, from);
        TrailAppend(record.tun, before, before - (deleted + {route}), os.history, from);
      }
      AboveAppend(before - Rows(routes), before - deleted, os.history, from);
      AboveAppend(before - Rows(routes), before - (deleted + {route}), os.history, from);
      var ok := os.DeleteRoute(route);
      if ok {
        record.owned := Except(record.owned, {route});
        deleted := deleted + {route};
      } else {
        rest := rest + [route];
      }
    }
    if Spares(record.tun, before, routes) {
      SparesGuards(record.tun, before, routes, deleted);
    }
    RollbackTrail(record.tun, before, os.history, from, routes, os.table);
  }

  lemma RollbackTrail(tun: nat, before: set<Route>, history: seq<set<Route>>, from: nat, routes: seq<Route>, after: set<Route>)
    requires |history| == from + |routes| && (routes != [] ==> history[|history| - 1] == after)
    requires forall r :: r in routes ==> r.luid != tun
    requires Spares(tun, before, routes) ==> Trail(tun, before, history, from)
    ensures after == before - Rows(routes) ==> (Trail(tun, before, history, from) <==> Spares(tun, before, routes))
  {
    hide Guarded, Spares, Trail;
    GuardedIffSpared(tun, before, routes);
    if routes == [] {
      NothingToSpare(tun, before, routes);
    } else if Trail(tun, before, history, from) {
      TrailLast(tun, before, history, from);
    }
  }

  lemma NothingToSpare(tun: nat, table: set<Route>, routes: seq<Route>)
    ensures routes == [] ==> Spares(tun, table, routes)
  {
  }

  // ---------------------------------------------------------------- refreshing bypass routes

  lemma TrailExtends(tun: nat, before: set<Route>, now: set<Route>, next: set<Route>, history: seq<set<Route>>, from: nat)
    requires Trail(tun, before, history, from)
    requires Guarded(tun, before, now) && Guarded(tun, now, next)
    ensures Trail(tun, before, history + [next], from) && Guarded(tun, before, next)
  {
    hide Guarded;
    GuardedTransitive(tun, before, now, next);
  }

  lemma TrailJoins(tun: nat, before: set<Route>, now: set<Route>, history: seq<set<Route>>, from: nat, middle: nat)
    requires from <= middle <= |history| && Trail(tun, before, history[..middle], from)
    requires Guarded(tun, before, now) && Trail(tun, now, history, middle)
    ensures Trail(tun, before, history, from)
  {
    hide Guarded;
    forall i | from <= i < |history|
      ensures Guarded(tun, before, history[i])
    {
      if i < middle {
        assert history[..middle][i] == history[i];
      } else {
        GuardedTransitive(tun, before, now, history[i]);
      }
    }
  }

  ghost predicate OnlyPrefix(route: Route, before: set<Route>, after: set<Route>) {
    forall row :: !SamePrefix(row, route) ==> (row in before <==> row in after)
  }

  lemma GuardedSame(tun: nat, table: set<Route>)
    ensures Guarded(tun, table, table)
  {
  }

  /** One retired row: the row of the wanted key stays, so the prefix keeps its way out. */
  lemma RetireStep(initial: set<Route>, table: set<Route>, owned: seq<Route>, tun: nat, route: Route, i: nat)
    requires Owns(initial, table, owned) && BypassMetric(tun, owned) && i < |owned|
    requires route.luid != tun && route.metric == BYPASS_ROUTE_METRIC && HasKey(table, KeyOf(route))
    requires owned[i].luid != tun && SamePrefix(owned[i], route) && owned[i] != route
    ensures var after := WithoutKey(table, KeyOf(owned[i]));
      && Owns(initial, after, Remove(owned, i))
      && BypassMetric(tun, Remove(owned, i))
      && Guarded(tun, table, after)
      && OnlyPrefix(route, table, after)
      && HasKey(after, KeyOf(route))
  {
    hide Owns, Except, Guarded;
    var gone := owned[i];
    NotInitial(initial, table, owned, gone);
    OwnsDelete(initial, table, owned, gone);
    assert DistinctKeys(owned) by { OwnsDistinct(initial, table, owned); }
    RemoveIsExcept(owned, i);
    var keep :| keep in table && KeyOf(keep) == KeyOf(route);
    assert KeyOf(gone) != KeyOf(route);
    GuardedDelete(tun, table, gone, keep);
    assert keep in WithoutKey(table, KeyOf(gone));
  }

  lemma OwnsDistinct(initial: set<Route>, table: set<Route>, owned: seq<Route>)
    requires Owns(initial, table, owned)
    ensures DistinctKeys(owned)
  {
  }

  /** Retires the owned rows of the prefix of `route`, other than `route` itself. */
  method RetireOthers(os: Os, record: InstallRecord, route: Route, ghost initial: set<Route>) returns (ok: bool)
    requires RoutesOk(initial, os, record)
    requires route.luid != record.tun && route.metric == BYPASS_ROUTE_METRIC && HasKey(os.table, KeyOf(route))
    modifies os`table, os`history, os`faults, os`undeleted, os`calls, record`owned
    ensures RoutesOk(initial, os, record)
    ensures |old(os.history)| <= |os.history| && os.history[..|old(os.history)|] == old(os.history)
    ensures Trail(record.tun, old(os.table), os.history, |old(os.history)|)
    ensures Guarded(record.tun, old(os.table), os.table)
    ensures OnlyPrefix(route, old(os.table), os.table)
    ensures HasKey(os.table, KeyOf(route))
    ensures if ok then os.faults == old(os.faults) else os.faults > old(os.faults)
    ensures os.undeleted >= old(os.undeleted)
    ensures ok ==> forall o :: o in record.owned && o.luid != record.tun && SamePrefix(o, route) ==> o == route
  {
    hide Owns, Guarded, HasKey, WithoutKey, KeyOf, BypassMetric, SamePrefix;
    var index := 0;
    GuardedSame(record.tun, os.table);
    while index < |record.owned|
      invariant 0 <= index <= |record.owned|
      invariant RoutesOk(initial, os, record)
      invariant |old(os.history)| <= |os.history| && os.history[..|old(os.history)|] == old(os.history)
      invariant Trail(record.tun, old(os.table), os.history, |old(os.history)|)
      invariant Guarded(record.tun, old(os.table), os.table)
      invariant OnlyPrefix(route, old(os.table), os.table)
      invariant HasKey(os.table, KeyOf(route))
      invariant os.faults == old(os.faults) && os.undeleted == old(os.undeleted)
      invariant forall k :: 0 <= k < index ==>
        !(record.owned[k].luid != record.tun && SamePrefix(record.owned[k], route) && record.owned[k] != route)
      decreases |record.owned| - index
    {
      var candidate := record.owned[index];
      if candidate.luid != record.tun && SamePrefix(candidate, route) && candidate != route {
        RetireStep(initial, os.table, record.owned, record.tun, route, index);
        ghost var after := WithoutKey(os.table, KeyOf(candidate));
        GuardedSame(record.tun, os.table);
        TrailExtends(record.tun, old(os.table), os.table, os.table, os.history, |old(os.history)|);
        TrailExtends(record.tun, old(os.table), os.table, after, os.history, |old(os.history)|);
        RowsNeverLost(initial, os.table, record.owned, os.history);
        RowsNeverLost(initial, after, Remove(record.owned, index), os.history);
        ok := os.DeleteRoute(candidate);
        if !ok {
          return;
        }
        record.owned := Remove(record.owned, index);
      } else {
        index := index + 1;
      }
    }
    ok := true;
  }

  /** The desired row sent the way of a physical row. */
  function Redirected(desired: Route, physical: Route): Route {
    desired.(hop := physical.hop, luid := physical.luid)
  }

  lemma DesiredUpdate(tun: nat, desired: seq<Route>, i: nat, route: Route)
    requires DesiredOk(tun, desired) && i < |desired|
    requires SamePrefix(route, desired[i]) && route.luid != tun && route.metric == BYPASS_ROUTE_METRIC
    ensures DesiredOk(tun, desired[i := route])
  {
    var updated := desired[i := route];
    forall d | d in updated
      ensures d.luid != tun && d.metric == BYPASS_ROUTE_METRIC
    {
      var k :| 0 <= k < |updated| && updated[k] == d;
      assert k != i ==> d == desired[k] && desired[k] in desired;
    }
  }

  lemma BypassMetricAppend(tun: nat, owned: seq<Route>, route: Route)
    requires BypassMetric(tun, owned) && route.metric == BYPASS_ROUTE_METRIC
    ensures BypassMetric(tun, owned + [route])
  {
  }

  lemma HasOwnKey(table: set<Route>, route: Route)
    requires route in table
    ensures HasKey(table, KeyOf(route))
  {
  }

  lemma OnlyPrefixAdd(table: set<Route>, route: Route)
    ensures OnlyPrefix(route, table, table + {route})
  {
  }

  /** Moves one desired bypass: the new row is there before the session's old ones go. */
  method RefreshBypass(os: Os, record: InstallRecord, i: nat, physical: Route, known: bool, ghost initial: set<Route>)
    returns (ok: bool)
    requires RoutesOk(initial, os, record)
    requires i < |record.desired| && physical.luid != record.tun
    requires known ==> Redirected(record.desired[i], physical) in os.table
    modifies os`table, os`history, os`faults, os`undeleted, os`calls, record`owned, record`desired
    ensures RoutesOk(initial, os, record)
    ensures |old(os.history)| <= |os.history| && os.history[..|old(os.history)|] == old(os.history)
    ensures Trail(record.tun, old(os.table), os.history, |old(os.history)|)
    ensures Guarded(record.tun, old(os.table), os.table)
    ensures OnlyPrefix(old(record.desired)[i], old(os.table), os.table)
    ensures if ok then os.faults == old(os.faults) else os.faults > old(os.faults)
    ensures os.undeleted >= old(os.undeleted)
    ensures
      var route := Redirected(old(record.desired)[i], physical);
      && (record.desired == old(record.desired) || record.desired == old(record.desired)[i := route])
      && (ok ==>
            && record.desired == old(record.desired)[i := route]
            && HasKey(os.table, KeyOf(route))
            && OneWayOut(initial, record.tun, route, old(record.owned), record.owned))
  {
    hide Owns, Guarded, HasKey, WithoutKey, KeyOf, BypassMetric, OneWayOut;
    var route := Redirected(record.desired[i], physical);
    ghost var before := os.table;
    ghost var from := |os.history|;
    assert record.desired[i] in record.desired;
    DesiredUpdate(record.tun, record.desired, i, route);
    GuardedSame(record.tun, os.table);
    if known {
      HasOwnKey(os.table, route);
    } else {
      TrailExtends(record.tun, before, before, before, os.history, from);
      RowsNeverLost(initial, os.table, record.owned, os.history);
      GuardedAdd(record.tun, os.table, route);
      TrailExtends(record.tun, before, before, before + {route}, os.history, from);
      OnlyPrefixAdd(os.table, route);
      var created := os.CreateRoute(route);
      if created.Err? {
        return false;
      }
      if created == Ok(Created) {
        OwnsCreate(initial, before, record.owned, route);
        BypassMetricAppend(record.tun, record.owned, route);
        if route !in record.owned {
          record.owned := record.owned + [route];
        }
        RowsNeverLost(initial, os.table, record.owned, old(os.history));
      }
    }
    record.desired := record.desired[i := route];
    ghost var now, middle := os.table, |os.history|;
    ok := RetireOthers(os, record, route, initial);
    TrailJoins(record.tun, before, now, os.history, from, middle);
    GuardedTransitive(record.tun, before, now, os.table);
    if ok {
      MovedOwns(initial, record.tun, route, before, old(record.owned), os.table, record.owned);
    }
  }

  /** The desired row after its turn: sent the way of the best physical row that the session did not
      own at that time, and present; or as it was, if there is no such row. */
  ghost predicate Moved(scanned: seq<Scanned>, tun: nat, owned: seq<Route>, table: set<Route>, was: Route, desired: Route) {
    match SelectPhysicalRoute(scanned, was.destination, tun, owned)
    case None => desired == was
    case Some(physical) => desired == Redirected(was, physical) && HasKey(table, KeyOf(desired))
  }

  /** The same in the rows' own fields: the next hop and the interface are those of the best way, all
      else is as before, and such a row is in the table. */
  ghost predicate Went(scanned: seq<Scanned>, tun: nat, owned: seq<Route>, table: set<Route>, was: Route, desired: Route) {
    || (NoWay(scanned, was.destination, tun, owned) && desired == was)
    || exists physical ::
         && BestWay(scanned, was.destination, tun, owned, physical)
         && desired == Route(was.destination, was.prefix, physical.hop, physical.luid, was.metric)
         && HasRow(table, was.destination, was.prefix, physical.hop, physical.luid)
  }

  lemma MovedWent(scanned: seq<Scanned>, tun: nat, owned: seq<Route>, table: set<Route>, was: Route, desired: Route)
    requires Moved(scanned, tun, owned, table, was, desired)
    ensures Went(scanned, tun, owned, table, was, desired)
  {
    hide NoWay, BestWay, HasKey, HasRow;
    SelectsBest(scanned, was.destination, tun, owned);
    KeyIsFields(table, desired);
  }

  /** What one turn makes of the owned rows: of a moved bypass the session keeps its new row at most,
      and it owns that unless the row was found at the start. Nothing else changes hands. */
  ghost predicate Turn(initial: set<Route>, tun: nat, scanned: seq<Scanned>, was: Route, owned: seq<Route>, next: seq<Route>) {
    match SelectPhysicalRoute(scanned, was.destination, tun, owned)
    case None => next == owned
    case Some(physical) => OneWayOut(initial, tun, Redirected(was, physical), owned, next)
  }

  ghost predicate OneWayOut(initial: set<Route>, tun: nat, route: Route, owned: seq<Route>, next: seq<Route>) {
    forall row: Route :: row in next <==>
      if row.luid != tun && SamePrefix(row, route) then row == route && !HasKey(initial, KeyOf(route)) else row in owned
  }

  lemma OwnedAreNew(initial: set<Route>, table: set<Route>, owned: seq<Route>)
    requires Owns(initial, table, owned)
    ensures forall row :: row in owned <==> row in table && row !in initial
  {
  }

  lemma MovedOwns(
    initial: set<Route>, tun: nat, route: Route,
    before: set<Route>, owned: seq<Route>, after: set<Route>, next: seq<Route>)
    requires Owns(initial, before, owned) && Owns(initial, after, next) && route.luid != tun
    requires Guarded(tun, before, after) && OnlyPrefix(route, before, after) && HasKey(after, KeyOf(route))
    requires forall o :: o in next && o.luid != tun && SamePrefix(o, route) ==> o == route
    ensures OneWayOut(initial, tun, route, owned, next)
  {
    hide HasBarrier;
    OwnedAreNew(initial, before, owned);
    OwnedAreNew(initial, after, next);
    if HasKey(initial, KeyOf(route)) {
      var row :| row in initial && KeyOf(row) == KeyOf(route);
      assert route !in next;
    } else {
      var row :| row in after && KeyOf(row) == KeyOf(route);
      assert row !in initial;
    }
  }

  /** The owned rows before each turn and after the last. */
  ghost predicate Turns(initial: set<Route>, tun: nat, scanned: seq<Scanned>, was: seq<Route>, seen: seq<seq<Route>>) {
    && 0 < |seen| <= |was| + 1
    && forall k :: 0 <= k < |seen| - 1 ==> Turn(initial, tun, scanned, was[k], seen[k], seen[k + 1])
  }

  lemma TurnsStep(
    initial: set<Route>, tun: nat, scanned: seq<Scanned>, was: seq<Route>, seen: seq<seq<Route>>, owned: seq<Route>, next: seq<Route>)
    requires |seen| < |was| && Turns(initial, tun, scanned, was, seen + [owned])
    requires Turn(initial, tun, scanned, was[|seen|], owned, next)
    ensures Turns(initial, tun, scanned, was, seen + [owned] + [next])
  {
    hide Turn;
    var longer := seen + [owned] + [next];
    forall k | 0 <= k < |longer| - 1
      ensures Turn(initial, tun, scanned, was[k], longer[k], longer[k + 1])
    {
      if k < |seen| {
        assert longer[k] == (seen + [owned])[k] && longer[k + 1] == (seen + [owned])[k + 1];
      }
    }
  }

  /** The lists agree on every row of another prefix. */
  ghost predicate AgreeOff(settled: seq<Route>, a: seq<Route>, b: seq<Route>) {
    forall row :: (forall j :: 0 <= j < |settled| ==> !SamePrefix(row, settled[j])) ==> (row in a <==> row in b)
  }

  lemma {:induction false} TurnsAgree(
    initial: set<Route>, tun: nat, scanned: seq<Scanned>, was: seq<Route>, seen: seq<seq<Route>>, i: nat)
    requires Turns(initial, tun, scanned, was, seen) && i < |seen|
    ensures AgreeOff(was[..i], seen[0], seen[i])
  {
    if i > 0 {
      hide SelectPhysicalRoute, HasKey;
      TurnsAgree(initial, tun, scanned, was, seen, i - 1);
      assert Turn(initial, tun, scanned, was[i - 1], seen[i - 1], seen[i]);
      assert was[..i] == was[..i - 1] + [was[i - 1]];
      AgreeOffStep(initial, tun, scanned, was[..i - 1], was[i - 1], seen[0], seen[i - 1], seen[i]);
    }
  }

  lemma AgreeOffStep(
    initial: set<Route>, tun: nat, scanned: seq<Scanned>, settled: seq<Route>, was: Route, a: seq<Route>, b: seq<Route>, c: seq<Route>)
    requires AgreeOff(settled, a, b) && Turn(initial, tun, scanned, was, b, c)
    ensures AgreeOff(settled + [was], a, c)
  {
    hide SelectPhysicalRoute, HasKey;
    forall row | forall j :: 0 <= j < |settled + [was]| ==> !SamePrefix(row, (settled + [was])[j])
      ensures row in a <==> row in c
    {
      assert (settled + [was])[|settled|] == was;
      forall j | 0 <= j < |settled|
        ensures !SamePrefix(row, settled[j])
      {
        assert (settled + [was])[j] == settled[j];
      }
    }
  }

  /** No earlier bypass of the list contains this one's address. */
  ghost predicate Unnested(desired: seq<Route>, i: nat)
    requires i < |desired|
  {
    forall j :: 0 <= j < i ==> !Contains(desired[j], desired[i].destination)
  }

  /** The choice depends on the owned rows that contain the destination only. */
  lemma {:induction false} SelectAgrees(rows: seq<Scanned>, destination: Ip, tun: nat, a: seq<Route>, b: seq<Route>)
    requires forall row :: Contains(row, destination) ==> (row in a <==> row in b)
    ensures SelectRow(rows, destination, tun, a) == SelectRow(rows, destination, tun, b)
  {
    if rows != [] {
      hide Contains;
      SelectAgrees(rows[..|rows| - 1], destination, tun, a, b);
    }
  }

  /** A bypass outside the earlier ones goes the way that is best by the rows owned at the start. */
  lemma UnnestedChoice(
    initial: set<Route>, tun: nat, scanned: seq<Scanned>, was: seq<Route>, seen: seq<seq<Route>>, i: nat)
    requires Turns(initial, tun, scanned, was, seen) && i < |was| && i < |seen| && Unnested(was, i)
    ensures SelectPhysicalRoute(scanned, was[i].destination, tun, seen[i])
         == SelectPhysicalRoute(scanned, was[i].destination, tun, seen[0])
  {
    hide And, Mask, SelectRow, Turn;
    TurnsAgree(initial, tun, scanned, was, seen, i);
    var settled := was[..i];
    forall row | Contains(row, was[i].destination)
      ensures row in seen[0] <==> row in seen[i]
    {
      forall j | 0 <= j < |settled|
        ensures !SamePrefix(row, settled[j])
      {
        assert settled[j] == was[j] && !Contains(was[j], was[i].destination);
      }
    }
    SelectAgrees(scanned, was[i].destination, tun, seen[i], seen[0]);
  }

  lemma MovedLikewise(
    scanned: seq<Scanned>, tun: nat, a: seq<Route>, b: seq<Route>, table: set<Route>, was: Route, desired: Route)
    requires Moved(scanned, tun, a, table, was, desired)
    requires SelectPhysicalRoute(scanned, was.destination, tun, a) == SelectPhysicalRoute(scanned, was.destination, tun, b)
    ensures Moved(scanned, tun, b, table, was, desired)
  {
  }

  /** Rows scanned at the start are still there, except for prefixes already dealt with. */
  ghost predicate StillThere(scanned: seq<Scanned>, table: set<Route>, desired: seq<Route>, i: nat) {
    forall row :: row in scanned && row.route !in table ==>
      exists j :: 0 <= j < i && j < |desired| && SamePrefix(row.route, desired[j])
  }

  lemma SelectedRow(scanned: seq<Scanned>, desired: Route, tun: nat, owned: seq<Route>)
    requires SelectPhysicalRoute(scanned, desired.destination, tun, owned).Some?
    ensures SelectPhysicalRoute(scanned, desired.destination, tun, owned).value.luid != tun
  {
    hide Contains;
    var k := BestIndex(scanned, desired.destination, tun, owned);
  }

  lemma ScannedRoute(scanned: seq<Scanned>, table: set<Route>, desired: seq<Route>, i: nat, route: Route)
    requires StillThere(scanned, table, desired, i) && i < |desired|
    requires route.destination == desired[i].destination && route.prefix == desired[i].prefix
    requires forall j, k :: 0 <= j < k < |desired| ==> !SamePrefix(desired[j], desired[k])
    requires Lists(scanned, route)
    ensures route in table
  {
  }

  predicate Lists(scanned: seq<Scanned>, route: Route) {
    exists row :: row in scanned && row.route == route
  }

  lemma StillThereStep(scanned: seq<Scanned>, before: set<Route>, after: set<Route>, desired: seq<Route>, i: nat)
    requires StillThere(scanned, before, desired, i) && i < |desired|
    requires OnlyPrefix(desired[i], before, after)
    ensures StillThere(scanned, after, desired, i + 1)
  {
    forall row | row in scanned && row.route !in after
      ensures exists j :: 0 <= j < i + 1 && j < |desired| && SamePrefix(row.route, desired[j])
    {
      if row.route in before {
        assert SamePrefix(row.route, desired[i]);
      }
    }
  }

  lemma KeyStays(before: set<Route>, after: set<Route>, route: Route, other: Route)
    requires HasKey(before, KeyOf(other)) && OnlyPrefix(route, before, after) && !SamePrefix(other, route)
    ensures HasKey(after, KeyOf(other))
  {
    var row :| row in before && KeyOf(row) == KeyOf(other);
    assert row in after;
  }

  /** The refresh after the turns in `seen`, each given by the rows owned at that time. */
  ghost predicate Reconciling(
    scanned: seq<Scanned>, tun: nat, table: set<Route>, was: seq<Route>, desired: seq<Route>, seen: seq<seq<Route>>)
  {
    && |desired| == |was| && |seen| <= |was|
    && StillThere(scanned, table, was, |seen|)
    && (forall k :: 0 <= k < |seen| ==> Moved(scanned, tun, seen[k], table, was[k], desired[k]))
    && (forall k :: |seen| <= k < |was| ==> desired[k] == was[k])
  }

  lemma ReconcileSkip(
    scanned: seq<Scanned>, tun: nat, table: set<Route>, was: seq<Route>, desired: seq<Route>, seen: seq<seq<Route>>, owned: seq<Route>)
    requires Reconciling(scanned, tun, table, was, desired, seen) && |seen| < |was|
    requires SelectPhysicalRoute(scanned, desired[|seen|].destination, tun, owned).None?
    ensures Reconciling(scanned, tun, table, was, desired, seen + [owned])
  {
    hide StillThere, SelectPhysicalRoute, Moved;
    StillThereStep(scanned, table, table, was, |seen|);
    MovedTo(scanned, tun, owned, table, was[|seen|], desired[|seen|]);
  }

  lemma ReconcileMove(
    scanned: seq<Scanned>, tun: nat, before: set<Route>, after: set<Route>,
    was: seq<Route>, desired: seq<Route>, seen: seq<seq<Route>>, owned: seq<Route>)
    requires Reconciling(scanned, tun, before, was, desired, seen) && |seen| < |was|
    requires forall j, k :: 0 <= j < k < |was| ==> !SamePrefix(was[j], was[k])
    requires SelectPhysicalRoute(scanned, desired[|seen|].destination, tun, owned).Some?
    requires OnlyPrefix(desired[|seen|], before, after)
    requires var route := Redirected(desired[|seen|], SelectPhysicalRoute(scanned, desired[|seen|].destination, tun, owned).value);
      HasKey(after, KeyOf(route))
    ensures var route := Redirected(desired[|seen|], SelectPhysicalRoute(scanned, desired[|seen|].destination, tun, owned).value);
      Reconciling(scanned, tun, after, was, desired[|seen| := route], seen + [owned])
  {
    hide StillThere, SelectPhysicalRoute, Moved, OnlyPrefix, HasKey, KeyOf, SamePrefix;
    var i := |seen|;
    var route := Redirected(desired[i], SelectPhysicalRoute(scanned, desired[i].destination, tun, owned).value);
    StillThereStep(scanned, before, after, was, i);
    MovedStays(scanned, tun, before, after, was, desired, seen, i);
    MovedTo(scanned, tun, owned, after, was[i], route);
  }

  lemma ReconcilePrefixes(
    scanned: seq<Scanned>, tun: nat, table: set<Route>, was: seq<Route>, desired: seq<Route>, seen: seq<seq<Route>>)
    requires Reconciling(scanned, tun, table, was, desired, seen)
    ensures |desired| == |was| && forall i :: 0 <= i < |was| ==> SamePrefix(was[i], desired[i])
  {
    hide SelectPhysicalRoute, HasKey, StillThere;
  }

  /** `reconcile_bypass_routes`. Whatever fails, at every state of the table no prefix has lost its
      way around the TUN, no row of the TUN has changed, and no row the session found is gone. `seen`
      holds the owned rows before each turn and after the last. */
  method ReconcileBypassRoutes(os: Os, record: InstallRecord, ghost initial: set<Route>)
    returns (ok: bool, ghost seen: seq<seq<Route>>)
    requires RoutesOk(initial, os, record)
    modifies os`table, os`history, os`faults, os`undeleted, os`calls, os`scan, record`owned, record`desired
    ensures RoutesOk(initial, os, record)
    ensures |old(os.history)| <= |os.history| && os.history[..|old(os.history)|] == old(os.history)
    ensures Trail(record.tun, old(os.table), os.history, |old(os.history)|)
    ensures Guarded(record.tun, old(os.table), os.table)
    ensures if ok then os.faults == old(os.faults) else os.faults > old(os.faults)
    ensures os.undeleted >= old(os.undeleted)
    ensures |record.desired| == |old(record.desired)|
    ensures forall i :: 0 <= i < |record.desired| ==> SamePrefix(old(record.desired)[i], record.desired[i])
    ensures ok ==>
      && Turns(initial, record.tun, os.scan, old(record.desired), seen)
      && |seen| == |record.desired| + 1 && seen[0] == old(record.owned) && seen[|record.desired|] == record.owned
      && forall i :: 0 <= i < |record.desired| ==>
           Went(os.scan, record.tun, seen[i], os.table, old(record.desired)[i], record.desired[i])
    ensures ok ==> forall i :: 0 <= i < |record.desired| && Unnested(old(record.desired), i) ==>
      Went(os.scan, record.tun, old(record.owned), os.table, old(record.desired)[i], record.desired[i])
  {
    hide Owns, Guarded, HasKey, KeyOf, BypassMetric, SelectPhysicalRoute, Moved, Went, StillThere, Lists, SamePrefix, Trail;
    hide OnlyPrefix, Turns, Turn, Unnested;
    ghost var before, from, wanted, first := os.table, |os.history|, record.desired, record.owned;
    GuardedSame(record.tun, os.table);
    TrailStarts(record.tun, os.table, os.history);
    SamePrefixes(wanted);
    var listed := os.PhysicalRoutes();
    if listed.Err? {
      return false, [];
    }
    var rows := listed.value;
    seen := [];
    NothingGone(rows, os.table, wanted);
    TurnsStart(initial, record.tun, rows, wanted, first);
    for i := 0 to |record.desired|
      invariant |seen| == i && |record.desired| == |wanted| && os.scan == rows
      invariant RoutesOk(initial, os, record) && os.faults == old(os.faults) && os.undeleted >= old(os.undeleted)
      invariant from <= |os.history| && os.history[..from] == old(os.history)
      invariant Trail(record.tun, before, os.history, from) && Guarded(record.tun, before, os.table)
      invariant Reconciling(rows, record.tun, os.table, wanted, record.desired, seen)
      invariant (seen + [record.owned])[0] == first
      invariant Turns(initial, record.tun, rows, wanted, seen + [record.owned])
    {
      ghost var now, middle, desired, owned := os.table, |os.history|, record.desired, record.owned;
      var physical := SelectPhysicalRoute(rows, record.desired[i].destination, record.tun, record.owned);
      if physical.None? {
        ReconcileSkip(rows, record.tun, now, wanted, desired, seen, owned);
      } else {
        SelectedRow(rows, desired[i], record.tun, owned);
        var known := Lists(rows, Redirected(record.desired[i], physical.value));
        if known {
          ScannedRoute(rows, now, wanted, i, Redirected(desired[i], physical.value));
        }
        ok := RefreshBypass(os, record, i, physical.value, known, initial);
        GuardedTransitive(record.tun, before, now, os.table);
        TrailJoins(record.tun, before, now, os.history, from, middle);
        if !ok {
          ReconcilePrefixes(rows, record.tun, now, wanted, desired, seen);
          RedirectKeepsPrefixes(wanted, desired, i, physical.value);
          return;
        }
        ReconcileMove(rows, record.tun, now, os.table, wanted, desired, seen, owned);
      }
      TurnTaken(initial, record.tun, rows, wanted[i], owned, record.owned);
      TurnsStep(initial, record.tun, rows, wanted, seen, owned, record.owned);
      seen := seen + [owned];
    }
    ReconcilePrefixes(rows, record.tun, os.table, wanted, record.desired, seen);
    ghost var turns := seen + [record.owned];
    forall i | 0 <= i < |wanted|
      ensures Went(rows, record.tun, turns[i], os.table, wanted[i], record.desired[i])
      ensures Unnested(wanted, i) ==> Went(rows, record.tun, first, os.table, wanted[i], record.desired[i])
    {
      assert turns[i] == seen[i];
      MovedWent(rows, record.tun, turns[i], os.table, wanted[i], record.desired[i]);
      if Unnested(wanted, i) {
        UnnestedChoice(initial, record.tun, rows, wanted, turns, i);
        MovedLikewise(rows, record.tun, turns[i], first, os.table, wanted[i], record.desired[i]);
        MovedWent(rows, record.tun, first, os.table, wanted[i], record.desired[i]);
      }
    }
    return true, turns;
  }

  lemma TurnsStart(initial: set<Route>, tun: nat, scanned: seq<Scanned>, was: seq<Route>, owned: seq<Route>)
    ensures Turns(initial, tun, scanned, was, [] + [owned]) && ([] + [owned])[0] == owned
  {
  }

  lemma TurnTaken(initial: set<Route>, tun: nat, scanned: seq<Scanned>, was: Route, owned: seq<Route>, next: seq<Route>)
    ensures var selected := SelectPhysicalRoute(scanned, was.destination, tun, owned);
      && (selected.None? && next == owned ==> Turn(initial, tun, scanned, was, owned, next))
      && (selected.Some? && OneWayOut(initial, tun, Redirected(was, selected.value), owned, next) ==>
            Turn(initial, tun, scanned, was, owned, next))
  {
  }

  lemma TrailStarts(tun: nat, table: set<Route>, history: seq<set<Route>>)
    ensures Trail(tun, table, history, |history|)
  {
  }

  lemma SamePrefixes(routes: seq<Route>)
    ensures forall i :: 0 <= i < |routes| ==> SamePrefix(routes[i], routes[i])
  {
  }

  lemma RedirectKeepsPrefixes(was: seq<Route>, desired: seq<Route>, i: nat, physical: Route)
    requires |was| == |desired| && i < |was| && forall k :: 0 <= k < |was| ==> SamePrefix(was[k], desired[k])
    ensures forall k :: 0 <= k < |was| ==> SamePrefix(was[k], desired[i := Redirected(desired[i], physical)][k])
  {
  }

  lemma MovedTo(scanned: seq<Scanned>, tun: nat, owned: seq<Route>, table: set<Route>, was: Route, desired: Route)
    ensures var selected := SelectPhysicalRoute(scanned, was.destination, tun, owned);
      && (selected.None? && desired == was ==> Moved(scanned, tun, owned, table, was, desired))
      && (selected.Some? && desired == Redirected(was, selected.value) && HasKey(table, KeyOf(desired)) ==>
            Moved(scanned, tun, owned, table, was, desired))
  {
  }

  lemma NothingGone(scanned: seq<Scanned>, table: set<Route>, desired: seq<Route>)
    requires forall row :: row in scanned ==> row.route in table
    ensures StillThere(scanned, table, desired, 0)
  {
  }

  lemma MovedStays(
    scanned: seq<Scanned>, tun: nat, before: set<Route>, after: set<Route>,
    was: seq<Route>, desired: seq<Route>, seen: seq<seq<Route>>, i: nat)
    requires |was| == |desired| && i < |was| && |seen| == i && OnlyPrefix(was[i], before, after)
    requires forall j, k :: 0 <= j < k < |was| ==> !SamePrefix(was[j], was[k])
    requires forall k :: 0 <= k < i ==> Moved(scanned, tun, seen[k], before, was[k], desired[k])
    ensures forall k :: 0 <= k < i ==> Moved(scanned, tun, seen[k], after, was[k], desired[k])
  {
    hide OnlyPrefix, HasKey, KeyOf, SelectPhysicalRoute;
    forall k | 0 <= k < i
      ensures Moved(scanned, tun, seen[k], after, was[k], desired[k])
    {
      if SelectPhysicalRoute(scanned, was[k].destination, tun, seen[k]).Some? {
        KeyStays(before, after, was[i], desired[k]);
      }
    }
  }

  /** A late rollback can take a prefix's last way out. The address goes out by `q`; the row `r` of an
      update could not be deleted and is still to be rolled back. A refresh that now finds the way of
      `r` makes it the desired one and retires `q`; the retried deletion of `r` then leaves nothing. */
  lemma LateRollbackTakesTheWayOut(tun: nat, address: Ip, found: Route, q: Route, r: Route)
    requires !address.v6 && found == Route(Ip(false, 0), 0, found.hop, found.luid, found.metric)
    requires q == Route(address, 32, q.hop, q.luid, BYPASS_ROUTE_METRIC)
    requires r == Route(address, 32, found.hop, found.luid, BYPASS_ROUTE_METRIC)
    requires tun != found.luid && tun != q.luid && q.luid != found.luid
    ensures Owns({found}, {found, q, r}, [q, r]) && Provisional({found}, tun, [r]) && DesiredOk(tun, [q])
    ensures Moved([Scanned(found, 0)], tun, [q, r], {found, r}, q, r)
    ensures Turn({found}, tun, [Scanned(found, 0)], q, [q, r], [r])
    ensures Owns({found}, {found, r}, [r]) && {found, r} == WithoutKey({found, q, r}, KeyOf(q))
    ensures Guarded(tun, {found, q, r}, {found, r}) && HasBarrier({found, r}, tun, r)
    ensures !Spares(tun, {found, r}, [r])
    ensures Owns({found}, {found}, []) && {found} == WithoutKey({found, r}, KeyOf(r))
    ensures !HasBarrier({found}, tun, r)
  {
    hide Contains;
    assert Rows([q, r]) == {q, r} && Rows([r]) == {r} && Rows([]) == {};
    DefaultSelected(tun, address, found, [q, r]);
    assert r in {found, r};
    GuardedDelete(tun, {found, q, r}, q, r);
    assert {found, q, r} - {q} == {found, r};
    assert {found, r} - {r} == {found};
  }

  lemma DefaultSelected(tun: nat, address: Ip, found: Route, owned: seq<Route>)
    requires !address.v6 && !found.destination.v6 && found.destination.value == 0 && found.prefix == 0
    requires found.luid != tun && found !in owned
    ensures SelectPhysicalRoute([Scanned(found, 0)], address, tun, owned) == Some(found)
  {
    hide And, Mask;
    MaskValue(32, 0);
    AndZero(address.value);
    AndZero(0);
    assert Eligible(Scanned(found, 0), address, tun, owned);
    assert [Scanned(found, 0)][..0] == [];
    assert SelectRow([], address, tun, owned).None?;
  }

  // ---------------------------------------------------------------- live upstream updates

  datatype Prepared = Prepared(added: seq<Route>, desired: seq<Route>)

  predicate IsLoopback(ip: Ip) {
    if ip.v6 then ip.value == 1 else ip.value / 0x100_0000 == 127
  }

  predicate IsUnspecified(ip: Ip) {
    ip.value == 0
  }

  predicate NeedsRoute(ip: Ip) {
    !IsLoopback(ip) && !IsUnspecified(ip)
  }

  /** By the octets: no route is needed for 0.0.0.0, :: and ::1, and for 127.0.0.0 to 127.255.255.255. */
  lemma NeedsRouteByOctet(ip: Ip)
    requires ValidIp(ip)
    ensures var octets := ToOctets(ip.value, Width(ip.v6));
      && (IsUnspecified(ip) <==> octets == seq(|octets|, _ => 0))
      && (NeedsRoute(ip) <==>
          && octets != seq(|octets|, _ => 0)
          && (if ip.v6 then octets != seq(15, _ => 0) + [1] else octets[0] != 127))
  {
    hide Power, ToOctets, Value;
    var n := Width(ip.v6);
    SmallOctets(n);
    ValueOfOctets(ip.value, n);
    FirstOctet(ip.value, n);
    SmallValues(n);
    PowerThree();
  }

  lemma SmallValues(n: nat)
    requires n > 0
    ensures Value(ToOctets(0, n)) == 0 && Value(ToOctets(1, n)) == 1
  {
    assert Power(n) == 256 * Power(n - 1);
    ValueOfOctets(0, n);
    ValueOfOctets(1, n);
  }

  function HostRoute(destination: Ip, physical: Route): Route {
    Route(destination, Bits(destination.v6), physical.hop, physical.luid, BYPASS_ROUTE_METRIC)
  }

  ghost predicate HostRoutes(tun: nat, routes: seq<Route>) {
    forall r :: r in routes ==>
      r.luid != tun && r.metric == BYPASS_ROUTE_METRIC && r.prefix == Bits(r.destination.v6) && NeedsRoute(r.destination)
  }

  /** Some upstream address has no physical route. */
  ghost predicate Unreachable(rows: seq<Scanned>, addresses: seq<Ip>, tun: nat, owned: seq<Route>) {
    exists ip :: ip in addresses && NeedsRoute(ip) && NoWay(rows, ip, tun, owned)
  }

  /** A route to just this address, by the next hop and interface of the best way. */
  ghost predicate RoutedBy(rows: seq<Scanned>, ip: Ip, tun: nat, owned: seq<Route>, routes: seq<Route>) {
    exists physical ::
      && BestWay(rows, ip, tun, owned, physical)
      && Route(ip, if ip.v6 then 128 else 32, physical.hop, physical.luid, BYPASS_ROUTE_METRIC) in routes
  }

  ghost predicate AllRouted(rows: seq<Scanned>, addresses: seq<Ip>, tun: nat, owned: seq<Route>, routes: seq<Route>) {
    forall ip :: ip in addresses && NeedsRoute(ip) ==> RoutedBy(rows, ip, tun, owned, routes)
  }

  lemma RoutedMore(rows: seq<Scanned>, ip: Ip, tun: nat, owned: seq<Route>, routes: seq<Route>, more: seq<Route>)
    requires RoutedBy(rows, ip, tun, owned, routes) && forall r :: r in routes ==> r in more
    ensures RoutedBy(rows, ip, tun, owned, more)
  {
    hide BestWay;
  }

  lemma HostRouted(rows: seq<Scanned>, ip: Ip, tun: nat, owned: seq<Route>, physical: Route, routes: seq<Route>)
    requires BestWay(rows, ip, tun, owned, physical) && HostRoute(ip, physical) in routes
    ensures RoutedBy(rows, ip, tun, owned, routes)
  {
    hide BestWay;
  }

  lemma WayOrNot(rows: seq<Scanned>, addresses: seq<Ip>, tun: nat, owned: seq<Route>, routes: seq<Route>)
    requires AllRouted(rows, addresses, tun, owned, routes)
    ensures !Unreachable(rows, addresses, tun, owned)
  {
    hide BestWay, NoWay, NeedsRoute;
    forall ip | ip in addresses && NeedsRoute(ip)
      ensures !NoWay(rows, ip, tun, owned)
    {
      assert RoutedBy(rows, ip, tun, owned, routes);
      var physical :| BestWay(rows, ip, tun, owned, physical)
        && Route(ip, if ip.v6 then 128 else 32, physical.hop, physical.luid, BYPASS_ROUTE_METRIC) in routes;
      BestIsUnique(rows, ip, tun, owned, physical, physical);
    }
  }

  /** The host routes for the upstream addresses, one per address that needs one; or nothing if an
      address has no physical route. */
  method PlanUpstream(rows: seq<Scanned>, addresses: seq<Ip>, tun: nat, owned: seq<Route>)
    returns (r: Result<seq<Route>, ()>)
    ensures r.Err? <==> Unreachable(rows, addresses, tun, owned)
    ensures r.Ok? ==>
      && HostRoutes(tun, r.value)
      && AllRouted(rows, addresses, tun, owned, r.value)
      && (forall route :: route in r.value ==> route.destination in addresses)
  {
    hide SelectRow, Contains, NoWay, BestWay, RoutedBy;
    var planned: seq<Route> := [];
    for i := 0 to |addresses|
      invariant forall k :: 0 <= k < i && NeedsRoute(addresses[k]) ==> RoutedBy(rows, addresses[k], tun, owned, planned)
      invariant HostRoutes(tun, planned)
      invariant forall route :: route in planned ==> route.destination in addresses
    {
      var destination := addresses[i];
      if NeedsRoute(destination) {
        var physical := SelectPhysicalRoute(rows, destination, tun, owned);
        SelectsBest(rows, destination, tun, owned);
        if physical.None? {
          return Err(());
        }
        var k := BestIndex(rows, destination, tun, owned);
        assert physical.value.luid != tun;
        var route := HostRoute(destination, physical.value);
        ghost var before := planned;
        if route !in planned {
          planned := planned + [route];
        }
        HostRouted(rows, destination, tun, owned, physical.value, planned);
        forall k | 0 <= k < i && NeedsRoute(addresses[k])
          ensures RoutedBy(rows, addresses[k], tun, owned, planned)
        {
          RoutedMore(rows, addresses[k], tun, owned, before, planned);
        }
      }
    }
    WayOrNot(rows, addresses, tun, owned, planned);
    return Ok(planned);
  }

  /** Creates the rows of an update up to the first failure. Every row created is owned and listed in
      the update, even if a later one fails. */
  method AddHostRoutes(os: Os, record: InstallRecord, routes: seq<Route>, ghost initial: set<Route>)
    returns (ok: bool, update: Prepared)
    requires RoutesOk(initial, os, record) && HostRoutes(record.tun, routes)
    modifies os`table, os`history, os`faults, os`calls, record`owned
    ensures RoutesOk(initial, os, record)
    ensures |old(os.history)| <= |os.history| && os.history[..|old(os.history)|] == old(os.history)
    ensures Trail(record.tun, old(os.table), os.history, |old(os.history)|)
    ensures Guarded(record.tun, old(os.table), os.table)
    ensures record.owned == old(record.owned) + update.added
    ensures os.table == old(os.table) + Rows(update.added)
    ensures forall r :: r in update.added ==> r !in old(record.owned)
    ensures Provisional(initial, record.tun, update.added)
    ensures update.desired <= routes && (ok ==> update.desired == routes)
    ensures forall r :: r in update.desired ==> HasKey(os.table, KeyOf(r))
    ensures if ok then os.faults == old(os.faults) else os.faults > old(os.faults)
  {
    hide Owns, HasKey, KeyOf, BypassMetric, NeedsRoute, Guarded, Trail;
    update := Prepared([], []);
    ghost var before, from := os.table, |os.history|;
    GuardedSame(record.tun, before);
    TrailStarts(record.tun, before, os.history);
    for i := 0 to |routes|
      invariant RoutesOk(initial, os, record)
      invariant os.faults == old(os.faults)
      invariant from <= |os.history| && os.history[..from] == old(os.history)
      invariant Trail(record.tun, before, os.history, from) && Guarded(record.tun, before, os.table)
      invariant record.owned == old(record.owned) + update.added
      invariant os.table == old(os.table) + Rows(update.added)
      invariant forall r :: r in update.added ==> r !in old(record.owned)
      invariant Provisional(initial, record.tun, update.added)
      invariant update.desired == routes[..i]
      invariant forall r :: r in update.desired ==> HasKey(os.table, KeyOf(r))
    {
      var route := routes[i];
      RowsNeverLost(initial, os.table, record.owned, os.history);
      ghost var table := os.table;
      GuardedSame(record.tun, table);
      GuardedAdd(record.tun, table, route);
      TrailExtends(record.tun, before, table, table, os.history, from);
      TrailExtends(record.tun, before, table, table + {route}, os.history, from);
      var created := os.CreateRoute(route);
      if created.Err? {
        return false, update;
      }
      if created == Ok(Created) {
        OwnsCreate(initial, table, record.owned, route);
        NewKey(initial, table, record.owned, route);
        BypassMetricAppend(record.tun, record.owned, route);
        KeysStay(table, route);
        if route !in record.owned {
          record.owned := record.owned + [route];
          update := update.(added := update.added + [route]);
        }
        RowsNeverLost(initial, os.table, record.owned, os.history[..|os.history| - 1]);
      }
      update := update.(desired := update.desired + [route]);
    }
    ok := true;
  }

  /** `add_upstream_bypasses`: the rows of a prepared update. The desired bypasses stay as they are until
      the update commits. */
  method AddUpstream(os: Os, record: InstallRecord, addresses: seq<Ip>, ghost initial: set<Route>)
    returns (ok: bool, update: Prepared)
    requires RoutesOk(initial, os, record)
    modifies os`table, os`history, os`faults, os`calls, os`scan, record`owned
    ensures RoutesOk(initial, os, record)
    ensures |old(os.history)| <= |os.history| && os.history[..|old(os.history)|] == old(os.history)
    ensures Trail(record.tun, old(os.table), os.history, |old(os.history)|)
    ensures Guarded(record.tun, old(os.table), os.table)
    ensures record.owned == old(record.owned) + update.added
    ensures os.table == old(os.table) + Rows(update.added)
    ensures forall r :: r in update.added ==> r !in old(record.owned)
    ensures Provisional(initial, record.tun, update.added)
    ensures HostRoutes(record.tun, update.desired)
    ensures forall r :: r in update.desired ==> HasKey(os.table, KeyOf(r)) && r.destination in addresses
    ensures ok ==> AllRouted(os.scan, addresses, record.tun, old(record.owned), update.desired)
    ensures os.faults >= old(os.faults) && (ok ==> os.faults == old(os.faults))
    ensures !record.removed && os.faults == old(os.faults) ==>
      (ok <==> !Unreachable(os.scan, addresses, record.tun, old(record.owned)))
    ensures record.removed ==> !ok && update == Prepared([], [])
  {
    hide Owns, HasKey, KeyOf, BypassMetric, AllRouted, NeedsRoute, Guarded, Trail, Unreachable, Provisional;
    update := Prepared([], []);
    GuardedSame(record.tun, os.table);
    TrailStarts(record.tun, os.table, os.history);
    NoneProvisional(initial, record.tun);
    if record.removed {
      return false, update;
    }
    var listed := os.PhysicalRoutes();
    if listed.Err? {
      return false, update;
    }
    var planned := PlanUpstream(listed.value, addresses, record.tun, record.owned);
    if planned.Err? {
      return false, update;
    }
    ok, update := AddHostRoutes(os, record, planned.value, initial);
  }

  lemma NoneProvisional(initial: set<Route>, tun: nat)
    ensures Provisional(initial, tun, [])
  {
  }

  lemma NewKey(initial: set<Route>, table: set<Route>, owned: seq<Route>, route: Route)
    requires Owns(initial, table, owned) && !HasKey(table, KeyOf(route))
    ensures !HasKey(initial, KeyOf(route))
  {
    assert initial <= table;
  }

  lemma KeysStay(table: set<Route>, route: Route)
    ensures forall r :: HasKey(table, KeyOf(r)) ==> HasKey(table + {route}, KeyOf(r))
  {
    forall r | HasKey(table, KeyOf(r))
      ensures HasKey(table + {route}, KeyOf(r))
    {
      var row :| row in table && KeyOf(row) == KeyOf(r);
      assert row in table + {route};
    }
  }

  /** Preparing an update and rolling it back, with every deletion succeeding, leaves the session's
      rows as they were: the same rows in the same order, and the same table. */
  method PrepareThenRollback(os: Os, record: InstallRecord, addresses: seq<Ip>, ghost initial: set<Route>)
    returns (complete: bool)
    requires RoutesOk(initial, os, record)
    modifies os`table, os`history, os`faults, os`undeleted, os`calls, os`scan, record`owned
    ensures RoutesOk(initial, os, record)
    ensures complete ==> record.owned == old(record.owned) && os.table == old(os.table)
    ensures os.faults == old(os.faults) ==> complete
    ensures forall row :: row in old(os.table) ==> row in os.table
  {
    hide HasKey, KeyOf, BypassMetric, NeedsRoute, Except;
    var ok, update := AddUpstream(os, record, addresses, initial);
    ghost var added := record.owned;
    AddedApart(initial, old(os.table), old(record.owned), os.table, update.added);
    var rest, deleted := RollbackUpstream(os, record, update.added, initial);
    complete := rest == [];
    if complete {
      ExceptAppend(old(record.owned), update.added, deleted);
      ExceptNone(old(record.owned), deleted);
      ExceptAll(update.added, deleted);
    }
  }

  lemma AddedApart(initial: set<Route>, table: set<Route>, owned: seq<Route>, after: set<Route>, added: seq<Route>)
    requires Owns(initial, table, owned) && Owns(initial, after, owned + added)
    requires forall r :: r in added ==> r !in owned
    ensures forall r :: r in added ==> r !in table
  {
    forall r | r in added
      ensures r !in table
    {
      assert r in owned + added;
      assert r in initial ==> KeyOf(r) != KeyOf(r);
    }
  }

  function CommitOne(desired: seq<Route>, route: Route): seq<Route> {
    if desired == [] then [route]
    else if SamePrefix(desired[0], route) then [route] + desired[1..]
    else [desired[0]] + CommitOne(desired[1..], route)
  }

  lemma {:induction false} CommitOneKeeps(tun: nat, desired: seq<Route>, route: Route)
    requires DesiredOk(tun, desired) && route.luid != tun && route.metric == BYPASS_ROUTE_METRIC
    ensures DesiredOk(tun, CommitOne(desired, route))
    ensures forall d :: d in CommitOne(desired, route) <==> d == route || (d in desired && !SamePrefix(d, route))
  {
    if desired != [] {
      var head, tail := desired[0], desired[1..];
      assert desired == [head] + tail;
      assert DesiredOk(tun, tail);
      if SamePrefix(head, route) {
        DesiredUpdate(tun, desired, 0, route);
        assert CommitOne(desired, route) == desired[0 := route];
        assert forall d :: d in tail ==> !SamePrefix(d, route);
      } else {
        CommitOneKeeps(tun, tail, route);
        HeadApart(tun, head, tail, CommitOne(tail, route), route);
      }
    }
  }

  lemma HeadApart(tun: nat, head: Route, tail: seq<Route>, updated: seq<Route>, route: Route)
    requires DesiredOk(tun, [head] + tail) && DesiredOk(tun, updated) && !SamePrefix(head, route)
    requires forall d :: d in updated <==> d == route || (d in tail && !SamePrefix(d, route))
    ensures DesiredOk(tun, [head] + updated)
  {
    var all := [head] + updated;
    assert ([head] + tail)[0] == head;
    forall i | 0 < i < |all|
      ensures !SamePrefix(head, all[i])
    {
      assert all[i] == updated[i - 1] && updated[i - 1] in updated;
      if all[i] in tail {
        var k :| 0 <= k < |tail| && tail[k] == all[i];
        assert ([head] + tail)[k + 1] == all[i];
      }
    }
    assert head in [head] + tail;
  }

  /** Commits an update: its routes become the desired ones for their prefixes, and no other
      desired route changes. */
  method CommitUpstream(record: InstallRecord, update: Prepared)
    requires DesiredOk(record.tun, record.desired) && HostRoutes(record.tun, update.desired)
    modifies record`desired
    ensures DesiredOk(record.tun, record.desired)
    ensures OthersStay(old(record.desired), update.desired, record.desired)
    ensures forall d :: d in record.desired ==> d in old(record.desired) || d in update.desired
    ensures forall r :: r in update.desired ==> Covers(record.desired, update.desired, r)
    ensures PrefixesKept(old(record.desired), record.desired)
  {
    hide Committed, CommitOne, DesiredOk, HostRoutes, OthersStay, Covers, PrefixesKept;
    CommitStart(record.tun, record.desired, update.desired);
    for i := 0 to |update.desired|
      invariant Committed(record.tun, old(record.desired), update.desired, i, record.desired)
    {
      CommitStep(record.tun, old(record.desired), update.desired, i, record.desired);
      record.desired := CommitOne(record.desired, update.desired[i]);
    }
    CommitEnd(record.tun, old(record.desired), update.desired, record.desired);
  }

  /** The list after the first `done` routes of the update. */
  ghost predicate Committed(tun: nat, first: seq<Route>, update: seq<Route>, done: nat, desired: seq<Route>) {
    && DesiredOk(tun, desired) && OthersStay(first, update, desired) && PrefixesKept(first, desired)
    && (forall d :: d in desired ==> d in first || d in update)
    && (forall k :: 0 <= k < done && k < |update| ==> Covers(desired, update, update[k]))
  }

  lemma CommitStart(tun: nat, first: seq<Route>, update: seq<Route>)
    requires DesiredOk(tun, first)
    ensures Committed(tun, first, update, 0, first)
  {
    SamePrefixesKept(first);
    AllStay(first, update);
  }

  lemma CommitStep(tun: nat, first: seq<Route>, update: seq<Route>, i: nat, desired: seq<Route>)
    requires Committed(tun, first, update, i, desired) && i < |update| && HostRoutes(tun, update)
    ensures Committed(tun, first, update, i + 1, CommitOne(desired, update[i]))
  {
    hide DesiredOk, OthersStay, Covers, PrefixesKept, CommitOne, SamePrefix, NeedsRoute;
    var route, after := update[i], CommitOne(desired, update[i]);
    CommitOneKeeps(tun, desired, route);
    CommitStays(first, desired, after, update, route);
    CommitKeepsPrefixes(first, desired, after, route);
    forall k | 0 <= k <= i
      ensures Covers(after, update, update[k])
    {
      CoversStays(desired, after, update, route, update[k]);
    }
  }

  lemma CommitEnd(tun: nat, first: seq<Route>, update: seq<Route>, desired: seq<Route>)
    requires Committed(tun, first, update, |update|, desired)
    ensures DesiredOk(tun, desired) && OthersStay(first, update, desired) && PrefixesKept(first, desired)
    ensures forall d :: d in desired ==> d in first || d in update
    ensures forall r :: r in update ==> Covers(desired, update, r)
  {
    hide Covers, DesiredOk, OthersStay, PrefixesKept;
  }

  /** Routes of prefixes that the update does not name are in the new list. */
  ghost predicate OthersStay(before: seq<Route>, update: seq<Route>, after: seq<Route>) {
    forall d :: d in before && (forall r :: r in update ==> !SamePrefix(d, r)) ==> d in after
  }

  lemma AllStay(desired: seq<Route>, update: seq<Route>)
    ensures OthersStay(desired, update, desired)
  {
  }

  lemma CommitStays(first: seq<Route>, before: seq<Route>, after: seq<Route>, update: seq<Route>, route: Route)
    requires OthersStay(first, update, before) && route in update
    requires forall d :: d in after <==> d == route || (d in before && !SamePrefix(d, route))
    ensures OthersStay(first, update, after)
  {
  }

  /** Each prefix of the one list is one of the other. */
  ghost predicate PrefixesKept(before: seq<Route>, after: seq<Route>) {
    forall d :: d in before ==> exists e :: e in after && SamePrefix(e, d)
  }

  lemma SamePrefixesKept(desired: seq<Route>)
    ensures PrefixesKept(desired, desired)
  {
    forall d | d in desired
      ensures exists e :: e in desired && SamePrefix(e, d)
    {
      assert SamePrefix(d, d);
    }
  }

  lemma CommitKeepsPrefixes(first: seq<Route>, before: seq<Route>, after: seq<Route>, route: Route)
    requires PrefixesKept(first, before)
    requires forall d :: d in after <==> d == route || (d in before && !SamePrefix(d, route))
    ensures PrefixesKept(first, after)
  {
    forall d | d in first
      ensures exists e :: e in after && SamePrefix(e, d)
    {
      var e :| e in before && SamePrefix(e, d);
      assert (if SamePrefix(e, route) then route else e) in after;
    }
  }

  lemma MovesKeepPrefixes(desired: seq<Route>, moved: seq<Route>)
    requires |moved| == |desired| && forall i :: 0 <= i < |moved| ==> SamePrefix(desired[i], moved[i])
    ensures PrefixesKept(desired, moved)
  {
    forall d | d in desired
      ensures exists e :: e in moved && SamePrefix(e, d)
    {
      var i :| 0 <= i < |desired| && desired[i] == d;
      assert moved[i] in moved && SamePrefix(moved[i], d);
    }
  }

  lemma PrefixesKeptTransitive(a: seq<Route>, b: seq<Route>, c: seq<Route>)
    requires PrefixesKept(a, b) && PrefixesKept(b, c)
    ensures PrefixesKept(a, c)
  {
    forall d | d in a
      ensures exists f :: f in c && SamePrefix(f, d)
    {
      var e :| e in b && SamePrefix(e, d);
      var f :| f in c && SamePrefix(f, e);
      assert SamePrefix(f, d);
    }
  }

  lemma HeldByPrefix(table: set<Route>, tun: nat, first: seq<Route>, desired: seq<Route>)
    requires PrefixesKept(first, desired) && Held(table, tun, desired)
    ensures Held(table, tun, first)
  {
    forall d | d in first
      ensures HasBarrier(table, tun, d)
    {
      var e :| e in desired && SamePrefix(e, d);
      assert HasBarrier(table, tun, e);
      var row :| row in table && row.luid != tun && SamePrefix(row, e);
      assert SamePrefix(row, d);
    }
  }

  /** Some desired route of the update has this prefix. */
  ghost predicate Covers(desired: seq<Route>, update: seq<Route>, route: Route) {
    exists d :: d in desired && d in update && SamePrefix(d, route)
  }

  lemma CoversStays(before: seq<Route>, after: seq<Route>, update: seq<Route>, route: Route, other: Route)
    requires route in update && other in update && (other == route || Covers(before, update, other))
    requires forall d :: d in after <==> d == route || (d in before && !SamePrefix(d, route))
    ensures Covers(after, update, other)
  {
    if SamePrefix(other, route) {
      assert route in after;
    } else {
      var d :| d in before && d in update && SamePrefix(d, other);
      assert d in after;
    }
  }
}
