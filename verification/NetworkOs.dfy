/** The operating system as the Windows network setup sees it: the operations of the
    `NetworkOperations` interface, each of which may fail (src/windows_network_config.rs).
 */
module NetworkOs {
  import opened Base
  import opened Addresses
  import opened Routing

  // ---------------------------------------------------------------- rows

  /** What identifies a row; the metric does not. */
  datatype Key = Key(destination: Ip, prefix: nat, hop: Hop, luid: nat)

  function KeyOf(route: Route): Key {
    Key(route.destination, route.prefix, route.hop, route.luid)
  }

  predicate HasKey(table: set<Route>, key: Key) {
    exists row :: row in table && KeyOf(row) == key
  }

  /** Some row has these fields, whatever its metric. */
  ghost predicate HasRow(table: set<Route>, destination: Ip, prefix: nat, hop: Hop, luid: nat) {
    exists row ::
      row in table && row.destination == destination && row.prefix == prefix && row.hop == hop && row.luid == luid
  }

  lemma KeyIsFields(table: set<Route>, route: Route)
    ensures HasKey(table, KeyOf(route)) <==> HasRow(table, route.destination, route.prefix, route.hop, route.luid)
  {
    if HasRow(table, route.destination, route.prefix, route.hop, route.luid) {
      var row :| row in table && row.destination == route.destination && row.prefix == route.prefix
                 && row.hop == route.hop && row.luid == route.luid;
      assert KeyOf(row) == KeyOf(route);
    }
  }

  function WithoutKey(table: set<Route>, key: Key): set<Route> {
    set row | row in table && KeyOf(row) != key
  }

  // ---------------------------------------------------------------- interfaces

  datatype Settings = Settings(forwarding: bool, weakSend: bool, weakReceive: bool)

  datatype Patch = Patch(forwarding: Option<bool>, weakSend: Option<bool>, weakReceive: Option<bool>)

  const NO_PATCH: Patch := Patch(None, None, None)

  function Patched(was: bool, patch: Option<bool>): bool {
    if patch.Some? then patch.value else was
  }

  function Apply(settings: Settings, patch: Patch): Settings {
    Settings(
      Patched(settings.forwarding, patch.forwarding),
      Patched(settings.weakSend, patch.weakSend),
      Patched(settings.weakReceive, patch.weakReceive))
  }

  datatype Role = Tun | WslHns

  datatype Target = Target(luid: nat, role: Role)

  datatype Failure = NotFound | OtherFailure

  datatype AddOutcome = Created | Preexisting

  datatype Call = Create(route: Route) | Delete(route: Route)

  datatype Probe = Probe(destination: Ip, answer: Result<(nat, Hop), ()>)

  datatype PatchCall = PatchCall(luid: nat, patch: Patch, outcome: Result<(), Failure>)

  datatype DnsCall = DnsCall(luid: nat, servers: Dns, ok: bool)

  type Dns = Option<string>

  function DnsOf(dns: map<nat, Dns>, luid: nat): Dns {
    if luid in dns then dns[luid] else None
  }

  /** Nothing but the calls below changes routes, DNS and settings. Interfaces can vanish for good
      at any time. `history` holds the table after every attempt to change it, `faults` counts the
      failed calls and `undeleted` the failed deletions among them. `calls` lists the attempts to change rows, in order.
      `scan` and `listing` are the last answers about routes and WSL interfaces; `probes`, `patches`
      and `dnsCalls` list the other calls with their outcomes. */
  class Os {
    var table: set<Route>
    var dns: map<nat, Dns>
    var settings: map<nat, Settings>
    var gone: set<nat>
    ghost var history: seq<set<Route>>
    ghost var faults: nat
    ghost var undeleted: nat
    ghost var calls: seq<Call>
    ghost var scan: seq<Scanned>
    ghost var listing: seq<Target>
    ghost var probes: seq<Probe>
    ghost var patches: seq<PatchCall>
    ghost var dnsCalls: seq<DnsCall>

    method CreateRoute(route: Route) returns (r: Result<AddOutcome, ()>)
      modifies `table, `history, `faults, `calls
      ensures if r.Ok? then faults == old(faults) else faults > old(faults)
      ensures calls == old(calls) + [Create(route)]
      ensures r == Ok(Created) ==> !HasKey(old(table), KeyOf(route)) && table == old(table) + {route}
      ensures r == Ok(Preexisting) ==> HasKey(old(table), KeyOf(route))
      ensures r.Ok? ==> HasKey(table, KeyOf(route))
      ensures r != Ok(Created) ==> table == old(table)
      ensures history == old(history) + [table]
    {
      var fails: bool := *;
      if fails {
        faults := faults + 1;
        r := Err(());
      } else if HasKey(table, KeyOf(route)) {
        r := Ok(Preexisting);
      } else {
        table := table + {route};
        r := Ok(Created);
      }
      history := history + [table];
      calls := calls + [Create(route)];
    }

    /** Deleting a row that is not there succeeds. */
    method DeleteRoute(route: Route) returns (ok: bool)
      modifies `table, `history, `faults, `undeleted, `calls
      ensures if ok then faults == old(faults) else faults > old(faults)
      ensures undeleted == if ok then old(undeleted) else old(undeleted) + 1
      ensures calls == old(calls) + [Delete(route)]
      ensures table == if ok then WithoutKey(old(table), KeyOf(route)) else old(table)
      ensures history == old(history) + [table]
    {
      ok := *;
      if ok {
        table := WithoutKey(table, KeyOf(route));
      } else {
        faults := faults + 1;
        undeleted := undeleted + 1;
      }
      history := history + [table];
      calls := calls + [Delete(route)];
    }

    method BestRoute(destination: Ip) returns (r: Result<(nat, Hop), ()>)
      modifies `faults, `probes
      ensures if r.Ok? then faults == old(faults) else faults > old(faults)
      ensures probes == old(probes) + [Probe(destination, r)]
    {
      var fails: bool := *;
      if fails {
        faults := faults + 1;
        r := Err(());
      } else {
        var interface: nat, hop: Hop := *, *;
        r := Ok((interface, hop));
      }
      probes := probes + [Probe(destination, r)];
    }

    method InterfaceLuid() returns (r: Result<nat, ()>)
      modifies `faults
      ensures if r.Ok? then faults == old(faults) else faults > old(faults)
    {
      var fails: bool := *;
      if fails {
        faults := faults + 1;
        return Err(());
      }
      var luid: nat := *;
      return Ok(luid);
    }

    method PhysicalRoutes() returns (r: Result<seq<Scanned>, ()>)
      modifies `faults, `scan
      ensures if r.Ok? then faults == old(faults) else faults > old(faults)
      ensures scan == if r.Ok? then r.value else old(scan)
      ensures r.Ok? ==> forall row :: row in r.value ==> row.route in table
    {
      var fails: bool := *;
      if fails {
        faults := faults + 1;
        return Err(());
      }
      var listed: seq<Scanned> := *;
      scan := Present(listed, table);
      return Ok(Present(listed, table));
    }

    method WslInterfaces() returns (r: Result<seq<Target>, ()>)
      modifies `faults, `listing
      ensures if r.Ok? then faults == old(faults) else faults > old(faults)
      ensures listing == if r.Ok? then r.value else old(listing)
      ensures r.Ok? ==> forall target :: target in r.value ==> target.role.WslHns?
    {
      var fails: bool := *;
      if fails {
        faults := faults + 1;
        return Err(());
      }
      var luids: seq<nat> := *;
      listing := WslTargets(luids);
      return Ok(WslTargets(luids));
    }

    method Vanish()
      modifies `gone
      ensures old(gone) <= gone
    {
      var vanished: set<nat> := *;
      gone := gone + vanished;
    }

    method InterfaceSettings(luid: nat) returns (r: Result<Settings, Failure>)
      modifies `gone, `faults
      ensures if r.Ok? then faults == old(faults) else faults > old(faults)
      ensures old(gone) <= gone
      ensures r.Ok? ==> luid in settings && luid !in gone && r.value == settings[luid]
      ensures r == Err(NotFound) <==> luid in gone || luid !in settings
    {
      Vanish();
      if luid in gone || luid !in settings {
        faults := faults + 1;
        return Err(NotFound);
      }
      var fails: bool := *;
      if fails {
        faults := faults + 1;
        return Err(OtherFailure);
      }
      return Ok(settings[luid]);
    }

    /** A failed patch may have been applied in part. */
    method ApplyPatch(luid: nat, patch: Patch) returns (r: Result<(), Failure>)
      modifies `gone, `settings, `faults, `patches
      ensures if r.Ok? then faults == old(faults) else faults > old(faults)
      ensures patches == old(patches) + [PatchCall(luid, patch, r)]
      ensures old(gone) <= gone
      ensures settings.Keys == old(settings).Keys
      ensures forall other :: other in settings && other != luid ==> settings[other] == old(settings)[other]
      ensures luid in settings ==> Between(old(settings)[luid], patch, settings[luid])
      ensures r.Ok? ==> luid in settings && settings[luid] == Apply(old(settings)[luid], patch)
      ensures r == Err(NotFound) ==> luid in gone || luid !in settings
    {
      Vanish();
      var fails: bool := *;
      if luid in gone || luid !in settings {
        r := Err(NotFound);
      } else if fails {
        var one: bool, two: bool, three: bool := *, *, *;
        var part := Patch(
          if one then patch.forwarding else None,
          if two then patch.weakSend else None,
          if three then patch.weakReceive else None);
        settings := settings[luid := Apply(settings[luid], part)];
        r := Err(OtherFailure);
      } else {
        settings := settings[luid := Apply(settings[luid], patch)];
        r := Ok(());
      }
      faults := if r.Ok? then faults else faults + 1;
      patches := patches + [PatchCall(luid, patch, r)];
    }

    method SnapshotDns(luid: nat) returns (r: Result<Dns, ()>)
      modifies `faults
      ensures if r.Ok? then faults == old(faults) else faults > old(faults)
      ensures r.Ok? ==> r.value == DnsOf(dns, luid)
    {
      var fails: bool := *;
      if fails {
        faults := faults + 1;
        return Err(());
      }
      return Ok(DnsOf(dns, luid));
    }

    /** A failed change may have taken effect. */
    method SetDns(luid: nat, servers: Dns) returns (ok: bool)
      modifies `dns, `faults, `dnsCalls
      ensures dnsCalls == old(dnsCalls) + [DnsCall(luid, servers, ok)]
      ensures if ok then faults == old(faults) else faults > old(faults)
      ensures ok ==> DnsOf(dns, luid) == servers
    {
      ok := *;
      var applied: bool := *;
      if ok || applied {
        dns := dns[luid := servers];
      }
      if !ok {
        faults := faults + 1;
      }
      dnsCalls := dnsCalls + [DnsCall(luid, servers, ok)];
    }
  }

  function Present(rows: seq<Scanned>, table: set<Route>): (present: seq<Scanned>)
    ensures forall row :: row in present ==> row.route in table
  {
    if rows == [] then []
    else (if rows[0].route in table then [rows[0]] else []) + Present(rows[1..], table)
  }

  function WslTargets(luids: seq<nat>): (targets: seq<Target>)
    ensures forall target :: target in targets ==> target.role.WslHns?
  {
    if luids == [] then [] else [Target(luids[0], WslHns)] + WslTargets(luids[1..])
  }

  /** Each field is as before or as the patch wants it. */
  predicate Between(was: Settings, patch: Patch, now: Settings) {
    && (now.forwarding == was.forwarding || now.forwarding == Patched(was.forwarding, patch.forwarding))
    && (now.weakSend == was.weakSend || now.weakSend == Patched(was.weakSend, patch.weakSend))
    && (now.weakReceive == was.weakReceive || now.weakReceive == Patched(was.weakReceive, patch.weakReceive))
  }
}
