/** Route matching and selection (src/windows_network_config.rs). */
module Routing {
  import opened Base
  import opened Addresses

  datatype Hop = Hop(ip: Ip, scope: nat)

  datatype Route = Route(destination: Ip, prefix: nat, hop: Hop, luid: nat, metric: nat)

  // ---------------------------------------------------------------- bits

  function Pow2(n: nat): (p: nat)
    ensures p > 0
  {
    if n == 0 then 1 else 2 * Pow2(n - 1)
  }

  /** Bitwise conjunction of unsigned numbers. */
  function And(a: nat, b: nat): nat {
    if a == 0 || b == 0 then 0 else 2 * And(a / 2, b / 2) + a % 2 * (b % 2)
  }

  function Shr(a: nat, n: nat): nat {
    if n == 0 then a else Shr(a / 2, n - 1)
  }

  /** `checked_shl` on a word of `width` bits. */
  function CheckedShl(a: nat, n: nat, width: nat): Option<nat> {
    if n < width then Some(a * Pow2(n) % Pow2(width)) else None
  }

  function Bits(v6: bool): nat {
    8 * Width(v6)
  }

  function Mask(width: nat, prefix: nat): nat
    requires prefix <= width
  {
    match CheckedShl(Pow2(width) - 1, width - prefix, width)
    case Some(mask) => mask
    case None => 0
  }

  /** `contains_destination`. */
  predicate Contains(route: Route, destination: Ip) {
    var width := Bits(destination.v6);
    && route.destination.v6 == destination.v6
    && route.prefix <= width
    && And(route.destination.value, Mask(width, route.prefix)) == And(destination.value, Mask(width, route.prefix))
  }

  lemma {:induction false} Pow2Split(n: nat, m: nat)
    ensures Pow2(n + m) == Pow2(n) * Pow2(m)
  {
    if n > 0 {
      Pow2Split(n - 1, m);
    }
  }

  lemma {:induction false} MaskValue(width: nat, prefix: nat)
    requires prefix <= width
    ensures Pow2(width - prefix) <= Pow2(width)
    ensures Mask(width, prefix) == Pow2(width) - Pow2(width - prefix)
  {
    var s := width - prefix;
    Pow2Split(prefix, s);
    Product(Pow2(prefix), Pow2(s));
    if s < width {
      Remainder(Pow2(width), Pow2(s));
    }
  }

  /** Shifting a word of ones left drops the high copies: (w - 1) p mod w = w - p. */
  lemma Remainder(w: nat, p: nat)
    requires 0 < p <= w
    ensures p < w ==> (w - 1) * p % w == w - p
  {
    if p < w {
      assert (w - 1) * p == w * (p - 1) + (w - p);
      Division((w - 1) * p, w, p - 1, w - p);
    }
  }

  /** Keeping the bits of a mask clears the low ones. */
  lemma {:induction false} AndMask(a: nat, width: nat, low: nat)
    requires low <= width && a < Pow2(width) && Pow2(low) <= Pow2(width)
    ensures And(a, Pow2(width) - Pow2(low)) == Shr(a, low) * Pow2(low)
  {
    hide And, Shr;
    AndZero(a);
    ShrStep(a, low);
    if width > 0 {
      var mask := Pow2(width) - Pow2(low);
      AndStep(a, mask);
      if low == 0 {
        ShrStep(a / 2, 0);
        AndMask(a / 2, width - 1, 0);
        assert mask / 2 == Pow2(width - 1) - 1 && mask % 2 == 1;
      } else {
        AndMask(a / 2, width - 1, low - 1);
        assert mask / 2 == Pow2(width - 1) - Pow2(low - 1) && mask % 2 == 0;
        Double(Shr(a, low), Pow2(low - 1));
      }
    }
  }

  lemma AndStep(a: nat, b: nat)
    ensures And(a, b) == 2 * And(a / 2, b / 2) + a % 2 * (b % 2)
  {
  }

  lemma AndZero(a: nat)
    ensures And(a, 0) == 0
  {
  }

  lemma ShrStep(a: nat, n: nat)
    ensures Shr(a, n) == if n == 0 then a else Shr(a / 2, n - 1)
  {
  }

  lemma Double(a: nat, b: nat)
    ensures 2 * (a * b) == a * (2 * b)
  {
  }

  lemma {:induction false} ShrDivides(a: nat, n: nat)
    ensures Shr(a, n) == a / Pow2(n)
  {
    if n > 0 {
      ShrDivides(a / 2, n - 1);
      NestedQuotient(a, 2, Pow2(n - 1));
    }
  }

  lemma SameProduct(a: nat, b: nat, p: nat)
    requires p > 0
    ensures a * p == b * p <==> a == b
  {
  }

  lemma {:induction false} PowerOfBits(n: nat)
    ensures Power(n) == Pow2(8 * n)
  {
    if n > 0 {
      PowerOfBits(n - 1);
      Pow2Split(8, 8 * (n - 1));
      assert Pow2(8) == 256;
    }
  }

  /** The masked comparison is equality of the leading `prefix` bits, for every prefix length. */
  lemma ContainsIsPrefixEquality(route: Route, ip: Ip)
    requires ValidIp(route.destination) && ValidIp(ip)
    ensures Contains(route, ip) <==>
      && route.destination.v6 == ip.v6
      && route.prefix <= Bits(ip.v6)
      && route.destination.value / Pow2(Bits(ip.v6) - route.prefix) == ip.value / Pow2(Bits(ip.v6) - route.prefix)
  {
    hide And, Pow2, Shr, Mask, Power;
    if route.destination.v6 == ip.v6 && route.prefix <= Bits(ip.v6) {
      var width := Bits(ip.v6);
      var low := width - route.prefix;
      PowerOfBits(Width(ip.v6));
      MaskValue(width, route.prefix);
      AndMask(ip.value, width, low);
      AndMask(route.destination.value, width, low);
      ShrDivides(ip.value, low);
      ShrDivides(route.destination.value, low);
      SameProduct(Shr(ip.value, low), Shr(route.destination.value, low), Pow2(low));
    }
  }

  // ---------------------------------------------------------------- selection

  /** A row of the system's table with its interface's metric. */
  datatype Scanned = Scanned(route: Route, interfaceMetric: nat)

  predicate Eligible(row: Scanned, destination: Ip, tun: nat, owned: seq<Route>) {
    row.route.luid != tun && row.route !in owned && Contains(row.route, destination)
  }

  function TotalMetric(row: Scanned): nat {
    row.route.metric + row.interfaceMetric
  }

  /** A longer prefix first, then a smaller total metric. */
  predicate Better(a: Scanned, b: Scanned) {
    || a.route.prefix > b.route.prefix
    || (a.route.prefix == b.route.prefix && TotalMetric(a) < TotalMetric(b))
  }

  /** `select_physical_route` over rows in table order. */
  function SelectRow(rows: seq<Scanned>, destination: Ip, tun: nat, owned: seq<Route>): Option<Scanned> {
    if rows == [] then None
    else
      var row := rows[|rows| - 1];
      match SelectRow(rows[..|rows| - 1], destination, tun, owned)
      case None => if Eligible(row, destination, tun, owned) then Some(row) else None
      case Some(best) =>
        if Eligible(row, destination, tun, owned) && Better(row, best) then Some(row) else Some(best)
  }

  /** The row at `k` is off the TUN, not owned, and contains the destination; no other such row has a
      longer prefix, or the same prefix and a smaller sum of metrics; and none before it has the same. */
  ghost predicate FirstBest(rows: seq<Scanned>, destination: Ip, tun: nat, owned: seq<Route>, k: int) {
    && 0 <= k < |rows|
    && rows[k].route.luid != tun && rows[k].route !in owned && Contains(rows[k].route, destination)
    && forall j :: 0 <= j < |rows| ==>
         || rows[j].route.luid == tun || rows[j].route in owned || !Contains(rows[j].route, destination)
         || rows[j].route.prefix < rows[k].route.prefix
         || (rows[j].route.prefix == rows[k].route.prefix && Cheaper(rows[k], rows[j], j < k))
  }

  ghost predicate Cheaper(best: Scanned, other: Scanned, strictly: bool) {
    if strictly then best.route.metric + best.interfaceMetric < other.route.metric + other.interfaceMetric
    else best.route.metric + best.interfaceMetric <= other.route.metric + other.interfaceMetric
  }

  /** No row leads to the destination but through the TUN or by an owned row. */
  ghost predicate NoWay(rows: seq<Scanned>, destination: Ip, tun: nat, owned: seq<Route>) {
    forall row :: row in rows ==> row.route.luid == tun || row.route in owned || !Contains(row.route, destination)
  }

  ghost predicate BestWay(rows: seq<Scanned>, destination: Ip, tun: nat, owned: seq<Route>, physical: Route) {
    exists k :: FirstBest(rows, destination, tun, owned, k) && rows[k].route == physical
  }

  /** The selected row is the first best one, and there is none exactly if no row leads there. */
  lemma SelectsBest(rows: seq<Scanned>, destination: Ip, tun: nat, owned: seq<Route>)
    ensures SelectPhysicalRoute(rows, destination, tun, owned).None? <==> NoWay(rows, destination, tun, owned)
    ensures SelectPhysicalRoute(rows, destination, tun, owned).Some? ==>
      BestWay(rows, destination, tun, owned, SelectPhysicalRoute(rows, destination, tun, owned).value)
  {
    hide Contains;
    var k := BestIndex(rows, destination, tun, owned);
    if SelectRow(rows, destination, tun, owned).Some? {
      assert rows[k] in rows;
      assert FirstBest(rows, destination, tun, owned, k);
    } else {
      forall row | row in rows
        ensures row.route.luid == tun || row.route in owned || !Contains(row.route, destination)
      {
        var i :| 0 <= i < |rows| && rows[i] == row;
        assert !Eligible(rows[i], destination, tun, owned);
      }
    }
  }

  /** There is one such row. */
  lemma BestIsUnique(rows: seq<Scanned>, destination: Ip, tun: nat, owned: seq<Route>, one: Route, two: Route)
    requires BestWay(rows, destination, tun, owned, one) && BestWay(rows, destination, tun, owned, two)
    ensures one == two && !NoWay(rows, destination, tun, owned)
  {
    hide Contains;
    var k :| FirstBest(rows, destination, tun, owned, k) && rows[k].route == one;
    var l :| FirstBest(rows, destination, tun, owned, l) && rows[l].route == two;
    assert rows[k] in rows;
  }

  /** Where the selected row stands, or -1. */
  lemma {:induction false} BestIndex(rows: seq<Scanned>, destination: Ip, tun: nat, owned: seq<Route>) returns (k: int)
    ensures SelectRow(rows, destination, tun, owned).None? ==>
      k == -1 && forall i :: 0 <= i < |rows| ==> !Eligible(rows[i], destination, tun, owned)
    ensures SelectRow(rows, destination, tun, owned).Some? ==>
      Leads(rows, destination, tun, owned, k) && rows[k] == SelectRow(rows, destination, tun, owned).value
  {
    hide Eligible, Better;
    if rows == [] {
      return -1;
    }
    var n := |rows| - 1;
    var front := rows[..n];
    assert forall i :: 0 <= i < n ==> rows[i] == front[i];
    k := BestIndex(front, destination, tun, owned);
    if Eligible(rows[n], destination, tun, owned) {
      if k == -1 {
        NotBetter(rows[n]);
        k := n;
      } else if Better(rows[n], rows[k]) {
        BetterExtends(rows, destination, tun, owned, k);
        k := n;
      }
    }
  }

  ghost predicate Leads(rows: seq<Scanned>, destination: Ip, tun: nat, owned: seq<Route>, k: int) {
    && 0 <= k < |rows|
    && Eligible(rows[k], destination, tun, owned)
    && (forall j :: 0 <= j < |rows| && Eligible(rows[j], destination, tun, owned) ==> !Better(rows[j], rows[k]))
    && (forall j :: 0 <= j < k && Eligible(rows[j], destination, tun, owned) ==> Better(rows[k], rows[j]))
  }

  lemma NotBetter(row: Scanned)
    ensures !Better(row, row)
  {
  }

  lemma BetterExtends(rows: seq<Scanned>, destination: Ip, tun: nat, owned: seq<Route>, k: int)
    requires |rows| > 0
    requires Leads(rows[..|rows| - 1], destination, tun, owned, k)
    requires Eligible(rows[|rows| - 1], destination, tun, owned) && Better(rows[|rows| - 1], rows[k])
    ensures Leads(rows, destination, tun, owned, |rows| - 1)
  {
    hide Eligible;
    var front := rows[..|rows| - 1];
    assert forall i :: 0 <= i < |front| ==> rows[i] == front[i];
  }

  function SelectPhysicalRoute(rows: seq<Scanned>, destination: Ip, tun: nat, owned: seq<Route>): Option<Route> {
    match SelectRow(rows, destination, tun, owned)
    case None => None
    case Some(row) => Some(row.route)
  }

  // ---------------------------------------------------------------- capture

  const CAPTURE_ROUTE_METRIC: nat := 6
  const BYPASS_ROUTE_METRIC: nat := 1

  /** The owned default row and the two halves of the IPv4 space, all through the TUN. */
  function CaptureRoutes(tun: nat, gateway: Ip): seq<Route> {
    [ Route(Ip(false, 0), 0, Hop(gateway, 0), tun, CAPTURE_ROUTE_METRIC),
      Route(Ip(false, 0), 1, Hop(gateway, 0), tun, CAPTURE_ROUTE_METRIC),
      Route(Ip(false, 0x8000_0000), 1, Hop(gateway, 0), tun, CAPTURE_ROUTE_METRIC) ]
  }

  lemma Halves()
    ensures Pow2(31) == 0x8000_0000 && Pow2(32) == 0x1_0000_0000
  {
    assert Pow2(8) == 256;
    Pow2Split(8, 8);
    Pow2Split(16, 8);
    Pow2Split(24, 7);
    Pow2Split(31, 1);
  }

  /** Every IPv4 address is in one of the two halves, so a default row never decides. */
  lemma EveryAddressCaptured(tun: nat, gateway: Ip, ip: Ip)
    requires !ip.v6 && ValidIp(ip)
    ensures Contains(CaptureRoutes(tun, gateway)[1], ip) <==> !Contains(CaptureRoutes(tun, gateway)[2], ip)
  {
    hide Contains;
    Halves();
    PowerOfBits(4);
    ContainsIsPrefixEquality(CaptureRoutes(tun, gateway)[1], ip);
    ContainsIsPrefixEquality(CaptureRoutes(tun, gateway)[2], ip);
  }

  /** Among the session's rows an address inside a bypass is decided by a bypass row: every row that
      matches it at least as long a prefix is not on the TUN. */
  lemma BypassBeatsCapture(tun: nat, gateway: Ip, bypasses: seq<Route>, bypass: Route, row: Route, ip: Ip)
    requires forall b :: b in bypasses ==> b.luid != tun && (b.destination.v6 || b.prefix > 1)
    requires bypass in bypasses && !ip.v6 && Contains(bypass, ip)
    requires row in CaptureRoutes(tun, gateway) + bypasses && Contains(row, ip) && row.prefix >= bypass.prefix
    ensures row in bypasses && row.luid != tun && row.prefix > 1
  {
    hide And, Mask;
  }
}
