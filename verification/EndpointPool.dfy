/** The pool of shared UDP endpoints, one per application socket, and the flows that use them
    (src/udp_bypass.rs). Every method below that stands for a section under a lock is one step.
 */
module EndpointPool {
  import opened Base
  import opened Addresses

  const IDLE_TIMEOUT: nat := 120_000
  const OWNER_FAILURE_GRACE: nat := 6_000
  const QUEUED_BYTES: nat := 8 * 1024 * 1024
  const PEER_QUEUE: nat := 16
  const MAX_ENDPOINTS: nat := 1024

  datatype Socket = Socket(ip: Ip, port: Word)

  datatype Interface = Interface(v4Index: nat, v6Index: nat)

  type Bytes = seq<Byte>

  /** `routes` maps a peer to the flow that receives its datagrams. */
  datatype Endpoint = Endpoint(
    source: Socket,
    owner: nat,
    interface: Interface,
    routes: map<Socket, nat>,
    lastActivity: nat,
    closed: bool)

  datatype Flow = Flow(endpoint: nat, peer: Socket, queue: seq<Bytes>, live: bool)

  /** The end of an endpoint, by a close under its lock or by its receiver's end without the lock; and
      what leaves the process, a datagram to a peer or a reply to the application. */
  datatype Event =
    | Closed(endpoint: nat)
    | Aborted(endpoint: nat)
    | SentOut(endpoint: nat, peer: Socket, payload: Bytes)
    | Injected(endpoint: nat, flow: nat, payload: Bytes)

  predicate IsUse(event: Event) {
    event.SentOut? || event.Injected?
  }

  predicate UsesInterface(endpoint: Endpoint, interface: Interface) {
    if endpoint.source.ip.v6 then endpoint.interface.v6Index == interface.v6Index
    else endpoint.interface.v4Index == interface.v4Index
  }

  predicate Expired(endpoint: Endpoint, now: nat) {
    endpoint.closed || (endpoint.routes == map[] && now >= endpoint.lastActivity + IDLE_TIMEOUT)
  }

  predicate IsMulticast(ip: Ip) {
    if ip.v6 then ip.value / Power(15) == 0xff else ip.value / 0x1000_0000 == 14
  }

  /** By the first octet: 224 to 239 in IPv4, 255 in IPv6. */
  lemma MulticastByOctet(ip: Ip)
    requires ValidIp(ip)
    ensures IsMulticast(ip) <==>
      var first := ToOctets(ip.value, Width(ip.v6))[0]; if ip.v6 then first == 255 else 224 <= first <= 239
  {
    hide Power, ToOctets;
    FirstOctet(ip.value, Width(ip.v6));
    if !ip.v6 {
      PowerThree();
      var first := ip.value / 0x100_0000;
      assert ip.value / 0x1000_0000 == first / 16;
    }
  }

  // ---------------------------------------------------------------- the registry

  /** Registered endpoints are known by their source, and every open endpoint is registered. */
  ghost predicate Registered(endpoints: map<Socket, nat>, arena: seq<Endpoint>) {
    && (forall s :: s in endpoints ==> endpoints[s] < |arena| && arena[endpoints[s]].source == s)
    && (forall id :: 0 <= id < |arena| && !arena[id].closed ==>
          arena[id].source in endpoints && endpoints[arena[id].source] == id)
  }

  /** Every route belongs to the live flow for its endpoint and peer. */
  ghost predicate RoutesOwned(arena: seq<Endpoint>, flows: seq<Flow>) {
    forall id, peer :: 0 <= id < |arena| && peer in arena[id].routes ==>
      var f := arena[id].routes[peer];
      f < |flows| && flows[f].live && flows[f].endpoint == id && flows[f].peer == peer
  }

  /** On an open endpoint, every live flow has its route. */
  ghost predicate FlowsRouted(arena: seq<Endpoint>, flows: seq<Flow>) {
    forall f :: 0 <= f < |flows| && flows[f].live ==>
      && flows[f].endpoint < |arena|
      && (!arena[flows[f].endpoint].closed ==>
            && flows[f].peer in arena[flows[f].endpoint].routes
            && arena[flows[f].endpoint].routes[flows[f].peer] == f)
  }

  /** No two live flows share an endpoint and a peer. */
  ghost predicate FlowsDistinct(flows: seq<Flow>) {
    forall f, g :: 0 <= f < g < |flows| && flows[f].live && flows[g].live ==>
      flows[f].endpoint != flows[g].endpoint || flows[f].peer != flows[g].peer
  }

  ghost predicate Consistent(endpoints: map<Socket, nat>, arena: seq<Endpoint>, flows: seq<Flow>) {
    Registered(endpoints, arena) && RoutesOwned(arena, flows) && FlowsRouted(arena, flows) && FlowsDistinct(flows)
  }

  function Retired(endpoint: Endpoint): Endpoint {
    endpoint.(closed := true, routes := map[])
  }

  /** The close of an endpoint, with or without its routes being cleared, together with its removal
      from the registry if it is registered, keeps everything consistent. */
  lemma CloseKeeps(endpoints: map<Socket, nat>, arena: seq<Endpoint>, flows: seq<Flow>, id: nat, after: Endpoint)
    requires Consistent(endpoints, arena, flows) && id < |arena|
    requires after.closed && after.source == arena[id].source
    requires after.routes == map[] || after.routes == arena[id].routes
    ensures Consistent(endpoints, arena[id := after], flows)
  {
  }

  lemma UnregisterKeeps(endpoints: map<Socket, nat>, arena: seq<Endpoint>, flows: seq<Flow>, source: Socket)
    requires Consistent(endpoints, arena, flows)
    requires source in endpoints && endpoints[source] < |arena| && arena[endpoints[source]].closed
    ensures Consistent(endpoints - {source}, arena, flows)
  {
  }

  lemma ActivityKeeps(endpoints: map<Socket, nat>, arena: seq<Endpoint>, flows: seq<Flow>, id: nat, now: nat)
    requires Consistent(endpoints, arena, flows) && id < |arena|
    ensures Consistent(endpoints, arena[id := arena[id].(lastActivity := now)], flows)
  {
  }

  lemma QueueKeeps(endpoints: map<Socket, nat>, arena: seq<Endpoint>, flows: seq<Flow>, f: nat, queue: seq<Bytes>)
    requires Consistent(endpoints, arena, flows) && f < |flows|
    ensures Consistent(endpoints, arena, flows[f := flows[f].(queue := queue)])
  {
  }

  lemma RegisterKeeps(endpoints: map<Socket, nat>, arena: seq<Endpoint>, flows: seq<Flow>, endpoint: Endpoint)
    requires Consistent(endpoints, arena, flows)
    requires endpoint.source !in endpoints && endpoint.routes == map[]
    ensures Consistent(endpoints[endpoint.source := |arena|], arena + [endpoint], flows)
  {
  }

  lemma OpenKeeps(endpoints: map<Socket, nat>, arena: seq<Endpoint>, flows: seq<Flow>, id: nat, peer: Socket, now: nat)
    requires Consistent(endpoints, arena, flows) && id < |arena|
    requires !arena[id].closed && peer !in arena[id].routes
    ensures Consistent(endpoints,
      arena[id := arena[id].(routes := arena[id].routes[peer := |flows|], lastActivity := now)],
      flows + [Flow(id, peer, [], true)])
  {
    forall f | 0 <= f < |flows| && flows[f].live && flows[f].endpoint == id
      ensures flows[f].peer != peer
    {
    }
  }

  /** A flow that ends takes away its own route and no other. */
  lemma DropKeeps(endpoints: map<Socket, nat>, arena: seq<Endpoint>, flows: seq<Flow>, f: nat)
    requires Consistent(endpoints, arena, flows) && f < |flows| && flows[f].live
    ensures flows[f].endpoint < |arena|
    ensures var id, peer := flows[f].endpoint, flows[f].peer;
      && (peer in arena[id].routes ==> arena[id].routes[peer] == f)
      && Consistent(endpoints,
           arena[id := arena[id].(routes := arena[id].routes - {peer})],
           flows[f := flows[f].(live := false, queue := [])])
  {
    hide Registered, RoutesOwned, FlowsRouted, FlowsDistinct;
    assert flows[f].endpoint < |arena| by { RoutedEndpoint(arena, flows, f); }
    var id, peer := flows[f].endpoint, flows[f].peer;
    var shorter, ended := arena[id := arena[id].(routes := arena[id].routes - {peer})], flows[f := flows[f].(live := false, queue := [])];
    OwnRoute(arena, flows, f);
    assert Registered(endpoints, shorter) by { RegisteredSame(endpoints, arena, shorter); }
    assert RoutesOwned(shorter, ended) by { RoutesOwnedDrop(arena, flows, f); }
    assert FlowsRouted(shorter, ended) by { FlowsRoutedDrop(arena, flows, f); }
    assert FlowsDistinct(ended) by { FlowsDistinctDrop(flows, f); }
  }

  lemma RoutedEndpoint(arena: seq<Endpoint>, flows: seq<Flow>, f: nat)
    requires FlowsRouted(arena, flows) && f < |flows| && flows[f].live
    ensures flows[f].endpoint < |arena|
  {
  }

  lemma OwnRoute(arena: seq<Endpoint>, flows: seq<Flow>, f: nat)
    requires RoutesOwned(arena, flows) && FlowsDistinct(flows) && f < |flows| && flows[f].live && flows[f].endpoint < |arena|
    ensures var id, peer := flows[f].endpoint, flows[f].peer; peer in arena[id].routes ==> arena[id].routes[peer] == f
  {
  }

  lemma RegisteredSame(endpoints: map<Socket, nat>, arena: seq<Endpoint>, after: seq<Endpoint>)
    requires Registered(endpoints, arena) && |after| == |arena|
    requires forall id :: 0 <= id < |arena| ==> after[id].source == arena[id].source && after[id].closed == arena[id].closed
    ensures Registered(endpoints, after)
  {
  }

  lemma RoutesOwnedDrop(arena: seq<Endpoint>, flows: seq<Flow>, f: nat)
    requires RoutesOwned(arena, flows) && FlowsDistinct(flows) && f < |flows| && flows[f].live && flows[f].endpoint < |arena|
    ensures var id, peer := flows[f].endpoint, flows[f].peer;
      RoutesOwned(arena[id := arena[id].(routes := arena[id].routes - {peer})], flows[f := flows[f].(live := false, queue := [])])
  {
  }

  lemma FlowsRoutedDrop(arena: seq<Endpoint>, flows: seq<Flow>, f: nat)
    requires FlowsRouted(arena, flows) && FlowsDistinct(flows) && f < |flows| && flows[f].live && flows[f].endpoint < |arena|
    ensures var id, peer := flows[f].endpoint, flows[f].peer;
      FlowsRouted(arena[id := arena[id].(routes := arena[id].routes - {peer})], flows[f := flows[f].(live := false, queue := [])])
  {
  }

  lemma FlowsDistinctDrop(flows: seq<Flow>, f: nat)
    requires FlowsDistinct(flows) && f < |flows|
    ensures FlowsDistinct(flows[f := flows[f].(live := false, queue := [])])
  {
  }

  // ---------------------------------------------------------------- the byte budget

  function Permit(datagram: Bytes): nat {
    if |datagram| == 0 then 1 else |datagram|
  }

  function Permits(queue: seq<Bytes>): nat {
    if queue == [] then 0 else Permits(queue[..|queue| - 1]) + Permit(queue[|queue| - 1])
  }

  function Queued(flows: seq<Flow>): nat {
    if flows == [] then 0 else Queued(flows[..|flows| - 1]) + Permits(flows[|flows| - 1].queue)
  }

  lemma PermitsAppend(queue: seq<Bytes>, datagram: Bytes)
    ensures Permits(queue + [datagram]) == Permits(queue) + Permit(datagram)
  {
    assert (queue + [datagram])[..|queue|] == queue;
  }

  lemma {:induction false} PermitsFirst(queue: seq<Bytes>)
    requires queue != []
    ensures Permits(queue) == Permit(queue[0]) + Permits(queue[1..])
  {
    if |queue| == 1 {
      assert queue[..0] == [];
      assert queue[1..] == [];
    } else {
      PermitsFirst(queue[..|queue| - 1]);
      assert queue[..|queue| - 1][1..] == queue[1..][..|queue| - 2];
    }
  }

  lemma QueuedAppend(flows: seq<Flow>, flow: Flow)
    ensures Queued(flows + [flow]) == Queued(flows) + Permits(flow.queue)
  {
    assert (flows + [flow])[..|flows|] == flows;
  }

  lemma {:induction false} QueuedUpdate(flows: seq<Flow>, f: nat, flow: Flow)
    requires f < |flows|
    ensures Queued(flows[f := flow]) + Permits(flows[f].queue) == Queued(flows) + Permits(flow.queue)
  {
    var n := |flows| - 1;
    if f == n {
      assert flows[f := flow][..n] == flows[..n];
    } else {
      assert flows[f := flow][..n] == flows[..n][f := flow];
      QueuedUpdate(flows[..n], f, flow);
    }
  }

  ghost predicate QueuesBounded(flows: seq<Flow>) {
    forall f :: 0 <= f < |flows| ==> |flows[f].queue| <= PEER_QUEUE
  }

  // ---------------------------------------------------------------- after the close

  /** Nothing is sent or injected through an endpoint after its close; and after its receiver's end
      without the lock, nothing but the use that held the lock at that moment. */
  ghost predicate Silent(log: seq<Event>) {
    forall i, j :: 0 <= i < j < |log| && !IsUse(log[i]) && IsUse(log[j]) && log[j].endpoint == log[i].endpoint ==>
      log[i].Aborted? && j == i + 1
  }

  /** Exactly the closed endpoints have an end on record. */
  ghost predicate OnRecord(log: seq<Event>, arena: seq<Endpoint>) {
    && (forall i :: 0 <= i < |log| ==> log[i].endpoint < |arena|)
    && (forall i :: 0 <= i < |log| && !IsUse(log[i]) ==> arena[log[i].endpoint].closed)
    && (forall id :: 0 <= id < |arena| && arena[id].closed ==> Closed(id) in log || Aborted(id) in log)
  }

  ghost predicate Quiet(log: seq<Event>, arena: seq<Endpoint>) {
    OnRecord(log, arena) && Silent(log)
  }

  lemma RecordEnd(log: seq<Event>, arena: seq<Endpoint>, event: Event, after: Endpoint)
    requires OnRecord(log, arena) && event.endpoint < |arena| && !IsUse(event) && after.closed
    ensures OnRecord(log + [event], arena[event.endpoint := after])
  {
    var more := log + [event];
    assert more[|log|] == event;
    assert forall e :: e in log ==> e in more;
  }

  lemma RecordUse(log: seq<Event>, arena: seq<Endpoint>, event: Event)
    requires OnRecord(log, arena) && event.endpoint < |arena| && IsUse(event)
    ensures OnRecord(log + [event], arena)
  {
    assert forall e :: e in log ==> e in log + [event];
  }

  /** No end of the endpoint is on record. */
  ghost predicate NotEnded(log: seq<Event>, id: nat) {
    forall i :: 0 <= i < |log| && !IsUse(log[i]) ==> log[i].endpoint != id
  }

  lemma SilentEnd(log: seq<Event>, event: Event)
    requires Silent(log) && !IsUse(event)
    ensures Silent(log + [event])
  {
  }

  lemma SilentUse(log: seq<Event>, event: Event)
    requires Silent(log) && NotEnded(log, event.endpoint)
    ensures Silent(log + [event])
  {
  }

  lemma SilentLastUse(log: seq<Event>, event: Event)
    requires Silent(log) && NotEnded(log, event.endpoint)
    ensures Silent(log + [Aborted(event.endpoint)] + [event])
  {
    SilentEnd(log, Aborted(event.endpoint));
  }

  lemma QuietClose(log: seq<Event>, arena: seq<Endpoint>, event: Event, after: Endpoint)
    requires Quiet(log, arena) && event.endpoint < |arena| && !IsUse(event) && after.closed
    ensures Quiet(log + [event], arena[event.endpoint := after])
  {
    hide OnRecord, Silent;
    RecordEnd(log, arena, event, after);
    SilentEnd(log, event);
  }

  lemma OpenNotEnded(log: seq<Event>, arena: seq<Endpoint>, id: nat)
    requires OnRecord(log, arena) && id < |arena| && !arena[id].closed
    ensures NotEnded(log, id)
  {
  }

  lemma QuietUse(log: seq<Event>, arena: seq<Endpoint>, event: Event)
    requires Quiet(log, arena) && event.endpoint < |arena| && !arena[event.endpoint].closed && IsUse(event)
    ensures Quiet(log + [event], arena)
  {
    hide OnRecord, Silent;
    OpenNotEnded(log, arena, event.endpoint);
    RecordUse(log, arena, event);
    SilentUse(log, event);
  }

  /** The receiver ends while a use of the endpoint is in progress. */
  lemma QuietLastUse(log: seq<Event>, arena: seq<Endpoint>, event: Event, after: Endpoint)
    requires Quiet(log, arena) && event.endpoint < |arena| && !arena[event.endpoint].closed && IsUse(event) && after.closed
    ensures Quiet(log + [Aborted(event.endpoint)] + [event], arena[event.endpoint := after])
  {
    hide OnRecord, Silent;
    var id := event.endpoint;
    OpenNotEnded(log, arena, id);
    RecordEnd(log, arena, Aborted(id), after);
    RecordUse(log + [Aborted(id)], arena[id := after], event);
    SilentLastUse(log, event);
  }

  /** The same endpoints are closed. */
  lemma QuietSame(log: seq<Event>, arena: seq<Endpoint>, arena': seq<Endpoint>)
    requires Quiet(log, arena) && |arena| <= |arena'|
    requires forall id :: 0 <= id < |arena| ==> arena'[id].closed == arena[id].closed
    requires forall id :: |arena| <= id < |arena'| ==> !arena'[id].closed
    ensures Quiet(log, arena')
  {
  }

  // ---------------------------------------------------------------- the last use

  /** An endpoint is used when it is opened, when a flow opens on it or sends, and when a datagram is
      queued. */
  datatype Use = Use(endpoint: nat, at: nat)

  ghost function LastUse(uses: seq<Use>, id: nat): Option<nat> {
    if uses == [] then None
    else if uses[|uses| - 1].endpoint == id then Some(uses[|uses| - 1].at)
    else LastUse(uses[..|uses| - 1], id)
  }

  /** Every endpoint knows the time of its last use. */
  ghost predicate Timed(uses: seq<Use>, arena: seq<Endpoint>) {
    forall id :: 0 <= id < |arena| ==> LastUse(uses, id) == Some(arena[id].lastActivity)
  }

  lemma LastUseNext(uses: seq<Use>, use: Use, id: nat)
    ensures LastUse(uses + [use], id) == if use.endpoint == id then Some(use.at) else LastUse(uses, id)
  {
    assert (uses + [use])[..|uses|] == uses;
  }

  lemma TimedUse(uses: seq<Use>, arena: seq<Endpoint>, id: nat, after: Endpoint)
    requires Timed(uses, arena) && id < |arena|
    ensures Timed(uses + [Use(id, after.lastActivity)], arena[id := after])
  {
    forall other | 0 <= other < |arena|
      ensures LastUse(uses + [Use(id, after.lastActivity)], other) == Some(arena[id := after][other].lastActivity)
    {
      LastUseNext(uses, Use(id, after.lastActivity), other);
    }
  }

  lemma TimedRegister(uses: seq<Use>, arena: seq<Endpoint>, endpoint: Endpoint)
    requires Timed(uses, arena)
    ensures Timed(uses + [Use(|arena|, endpoint.lastActivity)], arena + [endpoint])
  {
    forall id | 0 <= id <= |arena|
      ensures LastUse(uses + [Use(|arena|, endpoint.lastActivity)], id) == Some((arena + [endpoint])[id].lastActivity)
    {
      LastUseNext(uses, Use(|arena|, endpoint.lastActivity), id);
    }
  }

  lemma TimedSame(uses: seq<Use>, arena: seq<Endpoint>, arena': seq<Endpoint>)
    requires Timed(uses, arena) && |arena'| == |arena|
    requires forall id :: 0 <= id < |arena| ==> arena'[id].lastActivity == arena[id].lastActivity
    ensures Timed(uses, arena')
  {
    hide LastUse;
  }

  /** Closed endpoints stay closed and keep their identity. */
  ghost predicate Later(arena: seq<Endpoint>, arena': seq<Endpoint>) {
    && |arena| <= |arena'|
    && forall id :: 0 <= id < |arena| ==>
         && arena'[id].source == arena[id].source && arena'[id].owner == arena[id].owner
         && arena'[id].interface == arena[id].interface
         && (arena[id].closed ==> arena'[id].closed)
  }

  // ---------------------------------------------------------------- the pool

  datatype OpenError = InvalidInput | BindFailed | BrokenPipe

  class Pool {
    const limit: nat
    var endpoints: map<Socket, nat>
    var arena: seq<Endpoint>
    var flows: seq<Flow>
    var budget: nat
    var ownerFailureSince: Option<nat>
    ghost var log: seq<Event>
    ghost var uses: seq<Use>

    ghost predicate Valid()
      reads this
    {
      && limit <= MAX_ENDPOINTS && |endpoints| <= limit
      && Consistent(endpoints, arena, flows)
      && budget + Queued(flows) == QUEUED_BYTES
      && QueuesBounded(flows)
      && Quiet(log, arena)
      && Timed(uses, arena)
    }

    constructor (limit: nat)
      ensures Valid() && endpoints == map[] && arena == [] && flows == []
      ensures this.limit == if limit < 1024 then limit else 1024
      ensures ownerFailureSince == None && budget == 8_388_608
    {
      this.limit := if limit < MAX_ENDPOINTS then limit else MAX_ENDPOINTS;
      endpoints := map[];
      arena, flows := [], [];
      budget := QUEUED_BYTES;
      ownerFailureSince := None;
      log, uses := [], [];
    }

    /** `Endpoint::close`. */
    method Close(id: nat)
      requires Valid() && id < |arena|
      modifies `arena, `log
      ensures old(log) <= log
      ensures Valid() && arena == old(arena)[id := Retired(old(arena)[id])]
      ensures Later(old(arena), arena)
    {
      hide Consistent, Quiet, Timed;
      CloseKeeps(endpoints, arena, flows, id, Retired(arena[id]));
      QuietClose(log, arena, Closed(id), Retired(arena[id]));
      TimedSame(uses, arena, arena[id := Retired(arena[id])]);
      arena := arena[id := Retired(arena[id])];
      log := log + [Closed(id)];
    }

    /** The receive task ends without running its own clean-up: its guard cancels the endpoint without
        the lock, and the routes stay. */
    method AbortReceiver(id: nat)
      requires Valid() && id < |arena|
      modifies `arena, `log
      ensures log == old(log) + [Aborted(id)]
      ensures Valid() && arena == old(arena)[id := old(arena)[id].(closed := true)]
      ensures Later(old(arena), arena)
    {
      hide Consistent, Quiet, Timed;
      var after := arena[id].(closed := true);
      CloseKeeps(endpoints, arena, flows, id, after);
      QuietClose(log, arena, Aborted(id), after);
      TimedSame(uses, arena, arena[id := after]);
      arena := arena[id := after];
      log := log + [Aborted(id)];
    }

    method CloseAndRemove(source: Socket)
      requires Valid() && source in endpoints
      modifies `arena, `log, `endpoints
      ensures old(log) <= log
      ensures Valid() && endpoints == old(endpoints) - {source}
      ensures old(endpoints)[source] < |old(arena)|
      ensures arena == old(arena)[old(endpoints)[source] := Retired(old(arena)[old(endpoints)[source]])]
      ensures Later(old(arena), arena)
    {
      hide Quiet, Timed, RoutesOwned, FlowsRouted, FlowsDistinct;
      Close(endpoints[source]);
      UnregisterKeeps(endpoints, arena, flows, source);
      Fewer(endpoints, source);
      endpoints := endpoints - {source};
    }

    /** `retain`: every endpoint that is not kept is closed and forgotten; the others stay as they are. */
    method Retain(keep: set<Socket>)
      requires Valid()
      modifies `arena, `log, `endpoints
      ensures old(log) <= log
      ensures Valid() && Pruned(old(endpoints), old(arena), keep, endpoints, arena)
    {
      hide Consistent, Quiet, Timed, Queued, Pruned, Later;
      ghost var keeping := endpoints.Keys;
      PrunedNothing(endpoints, arena);
      while endpoints.Keys - keep != {}
        invariant Valid() && old(log) <= log
        invariant keeping == endpoints.Keys && old(endpoints).Keys * keep <= keeping
        invariant Pruned(old(endpoints), old(arena), keeping, endpoints, arena)
        decreases keeping
      {
        var source :| source in endpoints.Keys - keep;
        SourceOf(endpoints, arena, flows, source);
        PrunedStep(old(endpoints), old(arena), keeping, endpoints, arena, source);
        keeping := keeping - {source};
        CloseAndRemove(source);
      }
      assert forall s :: s in keeping && s !in keep ==> s in endpoints.Keys - keep;
      PrunedSame(old(endpoints), old(arena), keeping, keep, endpoints, arena);
    }

    /** The registered endpoint without routes that has been idle longest. */
    method OldestIdle() returns (oldest: Option<Socket>)
      requires Valid()
      ensures oldest.None? <==> forall s :: s in endpoints ==> arena[endpoints[s]].routes != map[]
      ensures oldest.Some? ==> LongestIdle(endpoints, arena, oldest.value)
    {
      hide RoutesOwned, FlowsRouted, FlowsDistinct, Quiet, Timed, Queued;
      oldest := None;
      var rest := endpoints.Keys;
      while rest != {}
        invariant rest <= endpoints.Keys
        invariant oldest.None? ==> forall s :: s in endpoints && s !in rest ==> arena[endpoints[s]].routes != map[]
        invariant oldest.Some? ==>
          && oldest.value in endpoints
          && arena[endpoints[oldest.value]].routes == map[]
          && forall s :: s in endpoints && s !in rest && arena[endpoints[s]].routes == map[] ==>
               arena[endpoints[oldest.value]].lastActivity <= arena[endpoints[s]].lastActivity
        decreases rest
      {
        var source :| source in rest;
        rest := rest - {source};
        var endpoint := arena[endpoints[source]];
        if endpoint.routes == map[] && (oldest.None? || endpoint.lastActivity < arena[endpoints[oldest.value]].lastActivity) {
          oldest := Some(source);
        }
      }
    }

    method RetireExpired(now: nat)
      requires Valid()
      modifies `arena, `log, `endpoints
      ensures old(log) <= log
      ensures Valid()
      ensures Unexpired(old(endpoints), old(arena), now, endpoints, arena)
      ensures forall s :: s in endpoints ==> endpoints[s] < |arena| && arena[endpoints[s]].source == s && !arena[endpoints[s]].closed
      ensures forall source, owner, interface :: Spared(old(arena), arena, source, owner, interface)
    {
      hide Consistent, Quiet, Timed, Queued, Pruned, Unexpired, QueuesBounded, Spared;
      AllRegistered(endpoints, arena, flows);
      var keep := set s | s in endpoints && !Expired(arena[endpoints[s]], now);
      Retain(keep);
      RetainUnexpired(old(endpoints), old(arena), now, keep, endpoints, arena);
    }

    method Register(source: Socket, owner: nat, interface: Interface, now: nat)
      requires Valid() && source !in endpoints && |endpoints| < limit
      modifies `arena, `endpoints, `uses
      ensures Valid() && uses == old(uses) + [Use(|old(arena)|, now)]
      ensures endpoints == old(endpoints)[source := |old(arena)|]
      ensures arena == old(arena) + [Endpoint(source, owner, interface, map[], now, false)]
    {
      hide Consistent, Quiet, Timed, Queued;
      var endpoint := Endpoint(source, owner, interface, map[], now, false);
      RegisterKeeps(endpoints, arena, flows, endpoint);
      QuietSame(log, arena, arena + [endpoint]);
      TimedRegister(uses, arena, endpoint);
      More(endpoints, source, |arena|);
      endpoints := endpoints[source := |arena|];
      uses := uses + [Use(|arena|, now)];
      arena := arena + [endpoint];
    }

    /** An endpoint whose owner or interface has changed gives way; it says whether one is left. */
    method CheckOwner(source: Socket, owner: nat, interface: Interface) returns (served: bool)
      requires Valid()
      requires forall s :: s in endpoints ==> endpoints[s] < |arena| && arena[endpoints[s]].source == s && !arena[endpoints[s]].closed
      modifies `arena, `log, `endpoints
      ensures old(log) <= log
      ensures Valid()
      ensures served <==> source in endpoints
      ensures served ==> Serves(arena, endpoints[source], source, owner, interface)
      ensures Spared(old(arena), arena, source, owner, interface)
    {
      hide Consistent, Quiet, Timed, Queued, Later, UsesInterface, Spared, QueuesBounded;
      served := false;
      SparedSame(arena, source, owner, interface);
      if source in endpoints {
        var id := endpoints[source];
        served := arena[id].owner == owner && UsesInterface(arena[id], interface);
        UsesByFamily(arena[id], interface);
        if !served {
          SparedRetired(arena, id, source, owner, interface);
          CloseAndRemove(source);
        }
      }
    }

    /** In a full pool, the longest idle endpoint without routes gives way, and no other. */
    method MakeRoom(ghost source: Socket, ghost owner: nat, ghost interface: Interface)
      returns (room: bool, ghost evicted: Option<Socket>)
      requires Valid()
      modifies `arena, `log, `endpoints
      ensures old(log) <= log
      ensures Valid()
      ensures room <==> |endpoints| < limit
      ensures !room ==> forall s :: s in endpoints ==> arena[endpoints[s]].routes != map[]
      ensures evicted.None? ==> endpoints == old(endpoints) && arena == old(arena)
      ensures evicted.Some? ==>
        && |old(endpoints)| >= limit
        && LongestIdle(old(endpoints), old(arena), evicted.value)
        && endpoints == old(endpoints) - {evicted.value}
        && arena == old(arena)[old(endpoints)[evicted.value] := Retired(old(arena)[old(endpoints)[evicted.value]])]
      ensures Spared(old(arena), arena, source, owner, interface)
    {
      hide Consistent, Quiet, Timed, Queued, Later, Spared, LongestIdle, QueuesBounded;
      room, evicted := true, None;
      SparedSame(arena, source, owner, interface);
      if |endpoints| >= limit {
        var oldest := OldestIdle();
        if oldest.None? {
          return false, None;
        }
        IdleFacts(endpoints, arena, oldest.value);
        Fewer(endpoints, oldest.value);
        SparedRetired(arena, endpoints[oldest.value], source, owner, interface);
        evicted := oldest;
        CloseAndRemove(oldest.value);
      }
    }

    /** Makes sure that the source has an endpoint of this owner on this interface, or reports that
        there is no room for one. */
    method Provide(now: nat, source: Socket, owner: nat, interface: Interface, bindOk: bool) returns (r: Result<bool, OpenError>)
      requires Valid()
      modifies `arena, `log, `endpoints, `uses
      ensures old(log) <= log
      ensures Valid() && old(uses) <= uses
      ensures r == Ok(true) ==> source in endpoints && Serves(arena, endpoints[source], source, owner, interface)
      ensures r == Ok(false) ==> |endpoints| >= limit && forall s :: s in endpoints ==> arena[endpoints[s]].routes != map[]
      ensures r.Err? ==> r.error == BindFailed && !bindOk
      ensures Spared(old(arena), arena, source, owner, interface)
    {
      hide Consistent, Quiet, Timed, Queued, Spared, UsesInterface, LongestIdle, QueuesBounded, Unexpired;
      RetireExpired(now);
      ghost var retired := arena;
      var served := CheckOwner(source, owner, interface);
      SparedTransitive(old(arena), retired, arena, source, owner, interface);
      if served {
        return Ok(true);
      }
      ghost var checked := arena;
      var room, _ := MakeRoom(source, owner, interface);
      SparedTransitive(old(arena), checked, arena, source, owner, interface);
      if !room {
        return Ok(false);
      }
      if !bindOk {
        return Err(BindFailed);
      }
      ghost var endpoint := Endpoint(source, owner, interface, map[], now, false);
      SparedAppend(old(arena), arena, source, owner, interface, endpoint);
      Register(source, owner, interface, now);
      return Ok(true);
    }
  
    /** `open_with`. A new flow gets the one route for its peer on the one open endpoint of its
        source; it never takes over a route, and it makes way for itself only at the cost of
        endpoints without routes. `aborted` says that the receiver ends just before the last step. */
    method Open(now: nat, source: Socket, peer: Socket, owner: nat, interface: Interface, bindOk: bool, aborted: bool)
      returns (r: Result<Option<nat>, OpenError>)
      requires Valid()
      modifies `arena, `log, `endpoints, `flows, `uses
      ensures old(log) <= log && old(uses) <= uses
      ensures Valid()
      ensures r.Ok? && r.value.Some? ==>
        && r.value == Some(|old(flows)|) && source in endpoints
        && flows == old(flows) + [Flow(endpoints[source], peer, [], true)]
        && Serves(arena, endpoints[source], source, owner, interface)
        && peer in arena[endpoints[source]].routes && arena[endpoints[source]].routes[peer] == |old(flows)|
        && arena[endpoints[source]].lastActivity == now
        && uses != [] && uses[|uses| - 1] == Use(endpoints[source], now)
      ensures !(r.Ok? && r.value.Some?) ==> flows == old(flows)
      ensures r == Ok(None) ==>
        || (source in endpoints && Serves(arena, endpoints[source], source, owner, interface) && peer in arena[endpoints[source]].routes)
        || (|endpoints| >= limit && forall s :: s in endpoints ==> arena[endpoints[s]].routes != map[])
      ensures r == Err(InvalidInput) <==>
        source.ip.v6 != peer.ip.v6 || IsMulticast(peer.ip) || peer.ip.value == 0
      ensures !aborted ==> r != Err(BrokenPipe)
      ensures |old(arena)| <= |arena|
      ensures forall id :: 0 <= id < |old(arena)| && !old(arena)[id].closed && arena[id].closed ==>
        (aborted && old(arena)[id].source == source) || Replaceable(old(arena)[id], source, owner, interface)
    {
      hide Consistent, Quiet, Timed, Queued, Spared, UsesInterface, IsMulticast;
      if source.ip.v6 != peer.ip.v6 || IsMulticast(peer.ip) || peer.ip.value == 0 {
        return Err(InvalidInput);
      }
      var provided := Provide(now, source, owner, interface, bindOk);
      OnlyReplaceable(old(arena), arena, source, owner, interface);
      if provided.Err? {
        return Err(provided.error);
      }
      if !provided.value {
        return Ok(None);
      }
      var id := endpoints[source];
      SourceOf(endpoints, arena, flows, source);
      if aborted {
        AbortReceiver(id);
      }
      if arena[id].closed {
        return Err(BrokenPipe);
      }
      if peer in arena[id].routes {
        return Ok(None);
      }
      OpenKeeps(endpoints, arena, flows, id, peer, now);
      QueuedAppend(flows, Flow(id, peer, [], true));
      ghost var routed := arena[id := arena[id].(routes := arena[id].routes[peer := |flows|], lastActivity := now)];
      QuietSame(log, arena, routed);
      UsesSame(arena[id], routed[id], interface);
      TimedUse(uses, arena, id, routed[id]);
      uses := uses + [Use(id, now)];
      arena := arena[id := arena[id].(routes := arena[id].routes[peer := |flows|], lastActivity := now)];
      flows := flows + [Flow(id, peer, [], true)];
      return Ok(Some(|flows| - 1));
    }

    /** `maintain_with`. After it every registered endpoint is open, on the current interface, and of
        its source's owner, unless owners have been unknown for less than the grace period. */
    method Maintain(now: nat, owners: Option<map<Socket, nat>>, interface: Option<Interface>)
      requires Valid()
      modifies `arena, `log, `endpoints, `ownerFailureSince
      ensures old(log) <= log
      ensures Valid()
      ensures ownerFailureSince == if owners.Some? then None else if old(ownerFailureSince).Some? then old(ownerFailureSince) else Some(now)
      ensures Maintained(old(endpoints), old(arena), endpoints, arena, now, owners, interface, ownerFailureSince)
    {
      hide Consistent, Quiet, Timed, Queued, Pruned, Kept, Maintained;
      if owners.Some? {
        ownerFailureSince := None;
      } else if ownerFailureSince.None? {
        ownerFailureSince := Some(now);
      }
      var unknown := owners.None? && now < ownerFailureSince.value + OWNER_FAILURE_GRACE;
      AllRegistered(endpoints, arena, flows);
      var keep := set s | s in endpoints && Kept(arena[endpoints[s]], s, now, unknown, owners, interface);
      Retain(keep);
      RetainMaintains(old(endpoints), old(arena), keep, endpoints, arena, now, unknown, owners, interface, ownerFailureSince);
    }

    method Shutdown()
      requires Valid()
      modifies `arena, `log, `endpoints
      ensures old(log) <= log
      ensures Valid() && endpoints == map[]
      ensures |arena| == |old(arena)|
      ensures forall id :: 0 <= id < |arena| ==> arena[id].closed
    {
      hide Quiet, Timed, Queued, RoutesOwned, FlowsRouted, FlowsDistinct;
      Retain({});
    }

    /** A datagram at an endpoint's socket goes to the queue of the flow that contacted the peer, if
        there is one, the byte budget allows it and the queue has room; otherwise it is lost. */
    method Receive(id: nat, peer: Socket, datagram: Bytes, now: nat) returns (queued: bool)
      requires Valid() && id < |arena|
      modifies `arena, `flows, `budget, `uses
      ensures Valid()
      ensures uses == old(uses) + if queued then [Use(id, now)] else []
      ensures queued <==>
        && peer in old(arena)[id].routes && (if |datagram| == 0 then 1 else |datagram|) <= old(budget)
        && |old(flows)[old(arena)[id].routes[peer]].queue| < PEER_QUEUE
      ensures queued ==>
        var f := old(arena)[id].routes[peer];
        && flows == old(flows)[f := old(flows)[f].(queue := old(flows)[f].queue + [datagram])]
        && arena == old(arena)[id := old(arena)[id].(lastActivity := now)]
        && budget == old(budget) - (if |datagram| == 0 then 1 else |datagram|)
      ensures !queued ==> flows == old(flows) && arena == old(arena) && budget == old(budget)
    {
      hide Quiet, Timed, Queued, Permits, Registered, FlowsRouted, FlowsDistinct;
      if peer !in arena[id].routes {
        return false;
      }
      if Permit(datagram) > budget {
        return false;
      }
      var f := arena[id].routes[peer];
      if |flows[f].queue| >= PEER_QUEUE {
        return false;
      }
      QueueKeeps(endpoints, arena, flows, f, flows[f].queue + [datagram]);
      PermitsAppend(flows[f].queue, datagram);
      QueuedUpdate(flows, f, flows[f].(queue := flows[f].queue + [datagram]));
      budget := budget - Permit(datagram);
      flows := flows[f := flows[f].(queue := flows[f].queue + [datagram])];
      ActivityKeeps(endpoints, arena, flows, id, now);
      QuietSame(log, arena, arena[id := arena[id].(lastActivity := now)]);
      TimedUse(uses, arena, id, arena[id].(lastActivity := now));
      uses := uses + [Use(id, now)];
      arena := arena[id := arena[id].(lastActivity := now)];
      return true;
    }

    /** `Flow::send` under the endpoint's lock. Nothing leaves through a closed endpoint; `aborts` says
        that the receiver ends, without the lock, between the check and the send. */
    method Send(f: nat, payload: Bytes, now: nat, accepted: bool, aborts: bool) returns (ok: bool)
      requires Valid() && f < |flows| && flows[f].live
      modifies `arena, `log, `uses
      ensures old(log) <= log
      ensures Valid()
      ensures flows[f].endpoint < |old(arena)|
      ensures ok <==> accepted && !old(arena)[flows[f].endpoint].closed
      ensures uses == old(uses) + if ok then [Use(flows[f].endpoint, now)] else []
      ensures var id := flows[f].endpoint;
        var was := old(arena)[id];
        arena == old(arena)[id := was.(closed := was.closed || aborts, lastActivity := if ok then now else was.lastActivity)]
      ensures var id := flows[f].endpoint;
        log == old(log)
          + (if aborts && !old(arena)[id].closed then [Aborted(id)] else [])
          + (if ok then [SentOut(id, flows[f].peer, payload)] else [])
    {
      hide Quiet, Timed, Queued, Registered, RoutesOwned, FlowsDistinct;
      var id := flows[f].endpoint;
      if arena[id].closed {
        return false;
      }
      if !accepted {
        if aborts {
          AbortReceiver(id);
        }
        return false;
      }
      var event := SentOut(id, flows[f].peer, payload);
      if aborts {
        QuietLastUse(log, arena, event, arena[id].(closed := true));
        CloseKeeps(endpoints, arena, flows, id, arena[id].(closed := true));
        TimedSame(uses, arena, arena[id := arena[id].(closed := true)]);
        arena := arena[id := arena[id].(closed := true)];
        log := log + [Aborted(id)];
      } else {
        QuietUse(log, arena, event);
      }
      log := log + [event];
      ActivityKeeps(endpoints, arena, flows, id, now);
      QuietSame(log, arena, arena[id := arena[id].(lastActivity := now)]);
      ghost var used := arena[id].(lastActivity := now);
      TimedUse(uses, arena, id, used);
      uses := uses + [Use(id, now)];
      arena := arena[id := arena[id].(lastActivity := now)];
      return true;
    }

    /** The relay takes the next queued reply and hands it to the application, unless the endpoint
        has been closed meanwhile; `aborts` is as for a send. */
    method Inject(f: nat, aborts: bool) returns (ok: bool)
      requires Valid() && f < |flows| && flows[f].live && flows[f].queue != []
      modifies `arena, `flows, `log, `budget
      ensures old(log) <= log
      ensures Valid()
      ensures old(flows)[f].endpoint < |old(arena)|
      ensures flows == old(flows)[f := old(flows)[f].(queue := old(flows)[f].queue[1..])]
      ensures ok <==> !old(arena)[old(flows)[f].endpoint].closed
      ensures var id := old(flows)[f].endpoint;
        arena == if aborts && ok then old(arena)[id := old(arena)[id].(closed := true)] else old(arena)
      ensures var id := old(flows)[f].endpoint;
        log == old(log)
          + (if aborts && ok then [Aborted(id)] else [])
          + (if ok then [Injected(id, f, old(flows)[f].queue[0])] else [])
    {
      hide Quiet, Timed, Queued, Permits, Registered, RoutesOwned, FlowsDistinct;
      var id, datagram := flows[f].endpoint, flows[f].queue[0];
      PermitsFirst(flows[f].queue);
      QueuedUpdate(flows, f, flows[f].(queue := flows[f].queue[1..]));
      QueueKeeps(endpoints, arena, flows, f, flows[f].queue[1..]);
      budget := budget + Permit(datagram);
      flows := flows[f := flows[f].(queue := flows[f].queue[1..])];
      ok := !arena[id].closed;
      if !ok {
        return;
      }
      var event := Injected(id, f, datagram);
      if aborts {
        QuietLastUse(log, arena, event, arena[id].(closed := true));
        CloseKeeps(endpoints, arena, flows, id, arena[id].(closed := true));
        TimedSame(uses, arena, arena[id := arena[id].(closed := true)]);
        arena := arena[id := arena[id].(closed := true)];
        log := log + [Aborted(id)];
      } else {
        QuietUse(log, arena, event);
      }
      log := log + [event];
    }

    /** The end of a flow: its route and its queue go; every other route stays. */
    method DropFlow(f: nat)
      requires Valid() && f < |flows| && flows[f].live
      modifies `arena, `flows, `budget
      ensures Valid()
      ensures old(flows)[f].endpoint < |old(arena)| && |arena| == |old(arena)|
      ensures flows == old(flows)[f := old(flows)[f].(live := false, queue := [])]
      ensures forall id, p :: 0 <= id < |arena| && p in old(arena)[id].routes && old(arena)[id].routes[p] != f ==>
        p in arena[id].routes && arena[id].routes[p] == old(arena)[id].routes[p]
      ensures var id := old(flows)[f].endpoint;
        arena == old(arena)[id := old(arena)[id].(routes := old(arena)[id].routes - {old(flows)[f].peer})]
      ensures budget == old(budget) + Permits(old(flows)[f].queue)
    {
      hide Quiet, Timed, Queued, Registered, RoutesOwned, FlowsDistinct;
      var id, peer := flows[f].endpoint, flows[f].peer;
      DropKeeps(endpoints, arena, flows, f);
      QueuedUpdate(flows, f, flows[f].(live := false, queue := []));
      QuietSame(log, arena, arena[id := arena[id].(routes := arena[id].routes - {peer})]);
      TimedSame(uses, arena, arena[id := arena[id].(routes := arena[id].routes - {peer})]);
      budget := budget + Permits(flows[f].queue);
      flows := flows[f := flows[f].(live := false, queue := [])];
      arena := arena[id := arena[id].(routes := arena[id].routes - {peer})];
    }
  }

  /** Exactly the endpoints that have not expired stay, as they were. */
  ghost predicate Unexpired(
    endpoints: map<Socket, nat>, arena: seq<Endpoint>, now: nat, endpoints': map<Socket, nat>, arena': seq<Endpoint>)
  {
    && |arena'| == |arena|
    && (forall s :: s in endpoints' ==> s in endpoints && endpoints'[s] == endpoints[s])
    && (forall s :: s in endpoints && endpoints[s] < |arena| ==> (s in endpoints' <==> !Expired(arena[endpoints[s]], now)))
    && (forall s :: s in endpoints' && endpoints'[s] < |arena| ==> arena'[endpoints'[s]] == arena[endpoints'[s]])
  }

  lemma RetainUnexpired(
    endpoints: map<Socket, nat>, arena: seq<Endpoint>, now: nat, keep: set<Socket>, endpoints': map<Socket, nat>, arena': seq<Endpoint>)
    requires Pruned(endpoints, arena, keep, endpoints', arena')
    requires forall s :: s in endpoints ==> endpoints[s] < |arena| && arena[endpoints[s]].source == s
    requires keep == set s | s in endpoints && !Expired(arena[endpoints[s]], now)
    ensures Unexpired(endpoints, arena, now, endpoints', arena')
    ensures forall s :: s in endpoints' ==> endpoints'[s] < |arena'| && arena'[endpoints'[s]].source == s && !arena'[endpoints'[s]].closed
    ensures forall source, owner, interface :: Spared(arena, arena', source, owner, interface)
  {
    forall source, owner, interface
      ensures Spared(arena, arena', source, owner, interface)
    {
      hide UsesInterface;
    }
  }

  ghost predicate LongestIdle(endpoints: map<Socket, nat>, arena: seq<Endpoint>, source: Socket) {
    && (forall s :: s in endpoints ==> endpoints[s] < |arena|)
    && source in endpoints && arena[endpoints[source]].routes == map[]
    && forall s :: s in endpoints && arena[endpoints[s]].routes == map[] ==>
         arena[endpoints[source]].lastActivity <= arena[endpoints[s]].lastActivity
  }

  predicate Kept(
    endpoint: Endpoint, source: Socket, now: nat, unknown: bool, owners: Option<map<Socket, nat>>, interface: Option<Interface>)
  {
    && (unknown || (owners.Some? && source in owners.value && owners.value[source] == endpoint.owner))
    && interface.Some? && UsesInterface(endpoint, interface.value)
    && !Expired(endpoint, now)
  }

  /** Why maintenance retires an open endpoint. */
  ghost predicate Refused(
    endpoint: Endpoint, now: nat, owners: Option<map<Socket, nat>>, interface: Option<Interface>, failureSince: Option<nat>)
  {
    || Expired(endpoint, now)
    || interface.None?
    || (endpoint.source.ip.v6 && endpoint.interface.v6Index != interface.value.v6Index)
    || (!endpoint.source.ip.v6 && endpoint.interface.v4Index != interface.value.v4Index)
    || (owners.Some? && !(endpoint.source in owners.value && owners.value[endpoint.source] == endpoint.owner))
    || (owners.None? && failureSince.Some? && now >= failureSince.value + OWNER_FAILURE_GRACE)
  }

  /** Exactly the endpoints that maintenance has no reason to retire stay, as they were. */
  ghost predicate Maintained(
    endpoints: map<Socket, nat>, arena: seq<Endpoint>, endpoints': map<Socket, nat>, arena': seq<Endpoint>,
    now: nat, owners: Option<map<Socket, nat>>, interface: Option<Interface>, failureSince: Option<nat>)
  {
    && |arena'| == |arena|
    && (forall s :: s in endpoints' ==> s in endpoints && endpoints'[s] == endpoints[s] && endpoints[s] < |arena|)
    && (forall s :: s in endpoints && endpoints[s] < |arena| ==>
          (s in endpoints' <==> !Refused(arena[endpoints[s]], now, owners, interface, failureSince)))
    && (forall s :: s in endpoints' ==> arena'[endpoints'[s]] == arena[endpoints'[s]])
    && (forall id :: 0 <= id < |arena| && arena'[id].closed && !arena[id].closed ==>
          Refused(arena[id], now, owners, interface, failureSince))
  }

  lemma RetainMaintains(
    endpoints: map<Socket, nat>, arena: seq<Endpoint>, keep: set<Socket>, endpoints': map<Socket, nat>, arena': seq<Endpoint>,
    now: nat, unknown: bool, owners: Option<map<Socket, nat>>, interface: Option<Interface>, failureSince: Option<nat>)
    requires Pruned(endpoints, arena, keep, endpoints', arena')
    requires forall s :: s in endpoints ==> endpoints[s] < |arena| && arena[endpoints[s]].source == s
    requires keep == set s | s in endpoints && Kept(arena[endpoints[s]], s, now, unknown, owners, interface)
    requires owners.None? ==> failureSince.Some?
    requires unknown == (owners.None? && now < failureSince.value + OWNER_FAILURE_GRACE)
    ensures Maintained(endpoints, arena, endpoints', arena', now, owners, interface, failureSince)
  {
    hide UsesInterface, Expired;
    forall s | s in endpoints
      ensures s in endpoints' <==> !Refused(arena[endpoints[s]], now, owners, interface, failureSince)
    {
      if interface.Some? {
        UsesByFamily(arena[endpoints[s]], interface.value);
      }
    }
  }

  lemma UsesSame(endpoint: Endpoint, endpoint': Endpoint, interface: Interface)
    requires endpoint.source == endpoint'.source && endpoint.interface == endpoint'.interface
    ensures UsesInterface(endpoint, interface) == UsesInterface(endpoint', interface)
  {
  }

  /** Only the index of the address family matters. */
  lemma UsesByFamily(endpoint: Endpoint, interface: Interface)
    ensures UsesInterface(endpoint, interface) <==>
      || (endpoint.source.ip.v6 && endpoint.interface.v6Index == interface.v6Index)
      || (!endpoint.source.ip.v6 && endpoint.interface.v4Index == interface.v4Index)
  {
  }

  /** An open endpoint for the source, of this owner and interface. */
  ghost predicate Serves(arena: seq<Endpoint>, id: nat, source: Socket, owner: nat, interface: Interface) {
    && id < |arena| && !arena[id].closed
    && arena[id].source == source && arena[id].owner == owner
    && (source.ip.v6 ==> arena[id].interface.v6Index == interface.v6Index)
    && (!source.ip.v6 ==> arena[id].interface.v4Index == interface.v4Index)
  }

  predicate Replaceable(endpoint: Endpoint, source: Socket, owner: nat, interface: Interface) {
    endpoint.routes == map[] || (endpoint.source == source && (endpoint.owner != owner || !UsesInterface(endpoint, interface)))
  }

  /** Only endpoints without routes, or the source's own one if its owner or interface has changed,
      have been closed; all others are as they were. */
  ghost predicate Spared(before: seq<Endpoint>, after: seq<Endpoint>, source: Socket, owner: nat, interface: Interface) {
    && |before| <= |after|
    && (forall id :: 0 <= id < |before| ==> after[id].source == before[id].source)
    && forall id :: 0 <= id < |before| ==>
         || after[id] == before[id]
         || (after[id] == Retired(before[id]) && (before[id].closed || Replaceable(before[id], source, owner, interface)))
  }

  lemma SparedSame(arena: seq<Endpoint>, source: Socket, owner: nat, interface: Interface)
    ensures Spared(arena, arena, source, owner, interface)
  {
  }

  lemma SparedRetired(arena: seq<Endpoint>, id: nat, source: Socket, owner: nat, interface: Interface)
    requires id < |arena| && Replaceable(arena[id], source, owner, interface)
    ensures Spared(arena, arena[id := Retired(arena[id])], source, owner, interface)
  {
    hide Replaceable;
  }

  lemma IdleFacts(endpoints: map<Socket, nat>, arena: seq<Endpoint>, source: Socket)
    requires LongestIdle(endpoints, arena, source)
    ensures source in endpoints && endpoints[source] < |arena| && arena[endpoints[source]].routes == map[]
  {
  }

  lemma SparedTransitive(a: seq<Endpoint>, b: seq<Endpoint>, c: seq<Endpoint>, source: Socket, owner: nat, interface: Interface)
    requires Spared(a, b, source, owner, interface) && Spared(b, c, source, owner, interface)
    ensures Spared(a, c, source, owner, interface)
  {
    hide UsesInterface;
  }

  lemma OnlyReplaceable(before: seq<Endpoint>, after: seq<Endpoint>, source: Socket, owner: nat, interface: Interface)
    requires Spared(before, after, source, owner, interface)
    ensures |before| <= |after|
    ensures forall id :: 0 <= id < |before| ==> after[id].source == before[id].source
    ensures forall id :: 0 <= id < |before| && !before[id].closed && after[id].closed ==>
      Replaceable(before[id], source, owner, interface)
  {
  }

  lemma SparedAppend(before: seq<Endpoint>, arena: seq<Endpoint>, source: Socket, owner: nat, interface: Interface, endpoint: Endpoint)
    requires Spared(before, arena, source, owner, interface)
    ensures Spared(before, arena + [endpoint], source, owner, interface)
  {
  }

  lemma AllRegistered(endpoints: map<Socket, nat>, arena: seq<Endpoint>, flows: seq<Flow>)
    requires Consistent(endpoints, arena, flows)
    ensures forall s :: s in endpoints ==> endpoints[s] < |arena| && arena[endpoints[s]].source == s
  {
  }

  lemma More(endpoints: map<Socket, nat>, source: Socket, id: nat)
    requires source !in endpoints
    ensures |endpoints[source := id]| == |endpoints| + 1
  {
    assert endpoints[source := id].Keys == endpoints.Keys + {source};
  }

  ghost predicate Dropped(endpoints: map<Socket, nat>, keep: set<Socket>, endpoint: Endpoint, id: nat) {
    endpoint.source in endpoints && endpoint.source !in keep && endpoints[endpoint.source] == id
  }

  /** What `retain` leaves of the registry and the endpoints. */
  ghost predicate Pruned(
    endpoints: map<Socket, nat>, arena: seq<Endpoint>, keep: set<Socket>,
    endpoints': map<Socket, nat>, arena': seq<Endpoint>)
  {
    && |arena'| == |arena|
    && endpoints' == (map s | s in endpoints && s in keep :: endpoints[s])
    && forall id :: 0 <= id < |arena| ==>
         arena'[id] == if Dropped(endpoints, keep, arena[id], id) then Retired(arena[id]) else arena[id]
  }

  lemma PrunedNothing(endpoints: map<Socket, nat>, arena: seq<Endpoint>)
    ensures Pruned(endpoints, arena, endpoints.Keys, endpoints, arena)
  {
  }

  lemma PrunedSame(
    endpoints: map<Socket, nat>, arena: seq<Endpoint>, keep: set<Socket>, keep': set<Socket>,
    endpoints': map<Socket, nat>, arena': seq<Endpoint>)
    requires Pruned(endpoints, arena, keep, endpoints', arena')
    requires forall s :: s in endpoints ==> (s in keep <==> s in keep')
    ensures Pruned(endpoints, arena, keep', endpoints', arena')
  {
  }

  lemma PrunedStep(
    endpoints: map<Socket, nat>, arena: seq<Endpoint>, keep: set<Socket>,
    endpoints': map<Socket, nat>, arena': seq<Endpoint>, source: Socket)
    requires Pruned(endpoints, arena, keep, endpoints', arena')
    requires source in endpoints' && endpoints'[source] < |arena'| && arena'[endpoints'[source]].source == source
    ensures Pruned(endpoints, arena, keep - {source}, endpoints' - {source},
                   arena'[endpoints'[source] := Retired(arena'[endpoints'[source]])])
  {
  }

  lemma Fewer(endpoints: map<Socket, nat>, source: Socket)
    requires source in endpoints
    ensures |endpoints - {source}| == |endpoints| - 1
  {
    assert endpoints.Keys == (endpoints - {source}).Keys + {source};
  }

  lemma SourceOf(endpoints: map<Socket, nat>, arena: seq<Endpoint>, flows: seq<Flow>, source: Socket)
    requires Consistent(endpoints, arena, flows) && source in endpoints
    ensures endpoints[source] < |arena| && arena[endpoints[source]].source == source
  {
  }

  // ---------------------------------------------------------------- whole runs

  datatype Step =
    | OpenFlow(source: Socket, peer: Socket, owner: nat, interface: Interface, bindOk: bool, aborted: bool)
    | MaintainPool(owners: Option<map<Socket, nat>>, current: Option<Interface>)
    | ShutDown
    | Arrival(endpoint: nat, from: Socket, datagram: Bytes)
    | ReceiverEnds(endpoint: nat, aborts: bool)
    | SendPayload(flow: nat, payload: Bytes, accepted: bool, aborting: bool)
    | InjectReply(flow: nat, aborting: bool)
    | EndFlow(flow: nat)

  /** Over any run, whatever the interleaving of opens, maintenance, traffic and closes, the pool
      stays valid, and its log only grows. */
  method Run(pool: Pool, steps: seq<(nat, Step)>)
    requires pool.Valid()
    modifies pool
    ensures pool.Valid() && old(pool.log) <= pool.log && old(pool.uses) <= pool.uses
  {
    hide Consistent, Quiet, Queued, QueuesBounded, Maintained, Serves, Replaceable, Permits, IsMulticast;
    for i := 0 to |steps|
      invariant pool.Valid() && old(pool.log) <= pool.log && old(pool.uses) <= pool.uses
    {
      var now, step := steps[i].0, steps[i].1;
      match step
      case OpenFlow(source, peer, owner, interface, bindOk, aborted) =>
        var _ := pool.Open(now, source, peer, owner, interface, bindOk, aborted);
      case MaintainPool(owners, current) => pool.Maintain(now, owners, current);
      case ShutDown => pool.Shutdown();
      case Arrival(endpoint, from, datagram) =>
        if endpoint < |pool.arena| {
          var _ := pool.Receive(endpoint, from, datagram, now);
        }
      case ReceiverEnds(endpoint, aborts) =>
        if endpoint < |pool.arena| {
          if aborts {
            pool.AbortReceiver(endpoint);
          } else {
            pool.Close(endpoint);
          }
        }
      case SendPayload(flow, payload, accepted, aborting) =>
        if flow < |pool.flows| && pool.flows[flow].live {
          var _ := pool.Send(flow, payload, now, accepted, aborting);
        }
      case InjectReply(flow, aborting) =>
        if flow < |pool.flows| && pool.flows[flow].live && pool.flows[flow].queue != [] {
          var _ := pool.Inject(flow, aborting);
        }
      case EndFlow(flow) =>
        if flow < |pool.flows| && pool.flows[flow].live {
          pool.DropFlow(flow);
        }
    }
  }

  /** An open endpoint expires exactly when it has no routes and its last use is two minutes ago. */
  lemma ExpiresWhenUnused(pool: Pool, id: nat, now: nat)
    requires pool.Valid() && id < |pool.arena| && !pool.arena[id].closed
    ensures LastUse(pool.uses, id).Some?
    ensures Expired(pool.arena[id], now) <==>
      pool.arena[id].routes == map[] && now >= LastUse(pool.uses, id).value + 120_000
  {
    hide Consistent, Quiet, Queued, LastUse;
  }

  /** What validity means: bounded, one open endpoint per source, one flow per route, nothing sent
      or injected after a close, at most the one use in progress after a receiver's end without the
      lock, and no byte of the budget lost. */
  lemma PoolSafety(pool: Pool)
    requires pool.Valid()
    ensures |pool.endpoints| <= pool.limit <= MAX_ENDPOINTS
    ensures forall i, j :: 0 <= i < j < |pool.arena| && !pool.arena[i].closed && !pool.arena[j].closed ==>
      pool.arena[i].source != pool.arena[j].source
    ensures forall f, g :: 0 <= f < g < |pool.flows| && pool.flows[f].live && pool.flows[g].live ==>
      pool.flows[f].endpoint != pool.flows[g].endpoint || pool.flows[f].peer != pool.flows[g].peer
    ensures forall i, j :: 0 <= i < j < |pool.log| && pool.log[i].Closed? && IsUse(pool.log[j]) ==>
      pool.log[i].endpoint != pool.log[j].endpoint
    ensures forall i, j :: 0 <= i < j < |pool.log| && pool.log[i].Aborted? && IsUse(pool.log[j]) ==>
      pool.log[i].endpoint != pool.log[j].endpoint || j == i + 1
    ensures (forall f :: 0 <= f < |pool.flows| ==> !pool.flows[f].live && pool.flows[f].queue == []) ==> pool.budget == QUEUED_BYTES
  {
    if forall f :: 0 <= f < |pool.flows| ==> !pool.flows[f].live && pool.flows[f].queue == [] {
      NothingQueued(pool.flows);
    }
  }

  lemma {:induction false} NothingQueued(flows: seq<Flow>)
    requires forall f :: 0 <= f < |flows| ==> flows[f].queue == []
    ensures Queued(flows) == 0
  {
    if flows != [] {
      NothingQueued(flows[..|flows| - 1]);
    }
  }
}
