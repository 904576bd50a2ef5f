/** The UDP gateway server's generation protocol (src/bin/udpgw_server.rs).

    For one client connection a reader, any number of relay tasks and a writer share the session
    map, the generation map and an outbound channel. Every section guarded by the delivery lock is
    one step, except the writer's, which keeps the lock for as long as a packet is being written.
 */
module GatewayServer {
  import opened Base

  type ConnId = Word

  /** An outbound packet; keepalive replies carry no generation. */
  datatype Item = Item(conn: ConnId, generation: Option<nat>)

  datatype Session = Session(generation: nat, address: string)

  /** The reader handles client packets one after the other. */
  datatype Reader =
    | Idle
    | Resolving(conn: ConnId, generation: nat, address: string)
    | Replying(item: Item)

  datatype Writer =
    | Waiting
    | Took(item: Item)
    | Writing(item: Item)

  /** What became of a packet taken from the channel. */
  datatype Fate = Fate(item: Item, written: bool)

  datatype State = State(
    generations: map<ConnId, nat>,
    sessions: map<ConnId, Session>,
    nextGeneration: nat,
    relays: set<(ConnId, nat)>,
    reader: Reader,
    channel: seq<Item>,
    writer: Writer,
    sent: seq<Item>,
    fates: seq<Fate>)

  const START := State(map[], map[], 1, {}, Idle, [], Waiting, [], [])

  const CHANNEL_CAPACITY: nat := 1024

  datatype Step =
    | ReadKeepalive(conn: ConnId)
    | ReadClose(conn: ConnId)
    | ReadInvalid(conn: ConnId)
    | ReadData(conn: ConnId, address: string, delivered: bool)
    | ResolveFails
    | Open(bound: bool, delivered: bool)
    | Reply
    | RelaySends(relay: (ConnId, nat))
    | RelayExits(relay: (ConnId, nat))
    | SessionExpires(relay: (ConnId, nat))
    | Take
    | Check
    | WriteDone
    | OtherClient

  predicate LockFree(s: State) {
    !s.writer.Writing?
  }

  /** `replace_generation`: advance the generation of a connection and retire its session. */
  function Replace(s: State, conn: ConnId): State {
    s.(generations := s.generations[conn := s.nextGeneration],
       sessions := s.sessions - {conn},
       nextGeneration := s.nextGeneration + 1)
  }

  /** `close_session`: forget the connection. */
  function Close(s: State, conn: ConnId): State {
    s.(generations := s.generations - {conn}, sessions := s.sessions - {conn})
  }

  function Enqueue(s: State, item: Item): State {
    s.(channel := s.channel + [item], sent := s.sent + [item])
  }

  /** Remove the session of a connection if it still is the one of this generation. */
  function Retire(s: State, relay: (ConnId, nat)): State {
    if relay.0 in s.sessions && s.sessions[relay.0].generation == relay.1
    then s.(sessions := s.sessions - {relay.0})
    else s
  }

  predicate IsCurrent(s: State, item: Item) {
    item.generation.None? || (item.conn in s.generations && s.generations[item.conn] == item.generation.value)
  }

  /** The maps a client's tasks share. Each method runs under the delivery lock; on the state of the
      protocol it has the effect of the function above. The generation counter is global. */
  class ClientSessions {
    var sessions: map<ConnId, Session>
    var generations: map<ConnId, nat>
    var nextGeneration: nat

    /** A protocol state with these maps. */
    ghost function With(s: State): State
      reads this
    {
      s.(sessions := sessions, generations := generations, nextGeneration := nextGeneration)
    }

    constructor (nextGeneration: nat)
      ensures sessions == map[] && generations == map[] && this.nextGeneration == nextGeneration
    {
      sessions, generations := map[], map[];
      this.nextGeneration := nextGeneration;
    }

    method ReplaceGeneration(conn: ConnId) returns (generation: nat)
      modifies this
      ensures forall s :: With(s) == Replace(old(With(s)), conn)
      ensures generation == old(nextGeneration) && conn in generations && generations[conn] == generation
    {
      generation := nextGeneration;
      nextGeneration := nextGeneration + 1;
      generations := generations[conn := generation];
      sessions := sessions - {conn};
    }

    method CloseSession(conn: ConnId) returns (closed: bool)
      modifies this
      ensures forall s :: With(s) == Close(old(With(s)), conn)
      ensures closed <==> conn in old(sessions)
    {
      generations := generations - {conn};
      closed := conn in sessions;
      sessions := sessions - {conn};
    }

    /** The clean-up at the end of a relay. */
    method RetireSession(conn: ConnId, generation: nat)
      modifies this
      ensures forall s :: With(s) == Retire(old(With(s)), (conn, generation))
    {
      if conn in sessions && sessions[conn].generation == generation {
        sessions := sessions - {conn};
      }
    }
  }

  ghost predicate NextReader(s: State, step: Step, s': State) {
    match step
    case ReadKeepalive(conn) => s.reader.Idle? && s' == s.(reader := Replying(Item(conn, None)))
    case ReadClose(conn) =>
      s.reader.Idle? && LockFree(s) && s' == Close(s, conn)
    case ReadInvalid(conn) =>
      && s.reader.Idle? && LockFree(s)
      && s' == Replace(s, conn).(reader := Replying(Item(conn, Some(s.nextGeneration))))
    case ReadData(conn, address, delivered) =>
      && s.reader.Idle?
      && if conn in s.sessions && s.sessions[conn].address == address
         then s' == if delivered then s else s.(reader := Replying(Item(conn, Some(s.sessions[conn].generation))))
         else LockFree(s) && s' == Replace(s, conn).(reader := Resolving(conn, s.nextGeneration, address))
    case ResolveFails =>
      s.reader.Resolving? && s' == s.(reader := Replying(Item(s.reader.conn, Some(s.reader.generation))))
    case Open(bound, delivered) =>
      && s.reader.Resolving? && LockFree(s)
      && var Resolving(conn, generation, address) := s.reader;
         if bound && delivered
         then s' == s.(sessions := s.sessions[conn := Session(generation, address)],
                       relays := s.relays + {(conn, generation)},
                       reader := Idle)
         else s' == s.(reader := Replying(Item(conn, Some(generation))))
    case Reply =>
      && s.reader.Replying? && |s.channel| < CHANNEL_CAPACITY
      && s' == Enqueue(s, s.reader.item).(reader := Idle)
    case _ => false
  }

  ghost predicate NextRelay(s: State, step: Step, s': State) {
    match step
    case RelaySends(relay) =>
      && relay in s.relays && |s.channel| < CHANNEL_CAPACITY
      && s' == Enqueue(s, Item(relay.0, Some(relay.1)))
    case RelayExits(relay) => relay in s.relays && s' == Retire(s, relay).(relays := s.relays - {relay})
    case SessionExpires(relay) => relay in s.relays && s' == Retire(s, relay)
    case OtherClient => s' == s.(nextGeneration := s.nextGeneration + 1)
    case _ => false
  }

  ghost predicate NextWriter(s: State, step: Step, s': State) {
    match step
    case Take =>
      && s.writer.Waiting? && s.channel != []
      && s' == s.(writer := Took(s.channel[0]), channel := s.channel[1..])
    case Check =>
      && s.writer.Took?
      && s' == if IsCurrent(s, s.writer.item) then s.(writer := Writing(s.writer.item))
               else s.(writer := Waiting, fates := s.fates + [Fate(s.writer.item, false)])
    case WriteDone =>
      s.writer.Writing? && s' == s.(writer := Waiting, fates := s.fates + [Fate(s.writer.item, true)])
    case _ => false
  }

  ghost predicate Next(s: State, step: Step, s': State) {
    NextReader(s, step, s') || NextRelay(s, step, s') || NextWriter(s, step, s')
  }

  // ---------------------------------------------------------------- safety

  /** The oldest generation that may still be written for a connection: the current one, or after a
      close the next one to be handed out. */
  function Floor(s: State, conn: ConnId): nat {
    if conn in s.generations then s.generations[conn] else s.nextGeneration
  }

  ghost predicate Versioned(fate: Fate, conn: ConnId) {
    fate.written && fate.item.conn == conn && fate.item.generation.Some?
  }

  /** Generations were handed out earlier; live sessions and pending opens have the current one. */
  ghost predicate Current(s: State) {
    && (forall conn :: conn in s.generations ==> s.generations[conn] < s.nextGeneration)
    && (forall conn :: conn in s.sessions ==> conn in s.generations && s.sessions[conn].generation == s.generations[conn])
    && (s.reader.Resolving? ==>
          s.reader.conn !in s.sessions && IsCurrent(s, Item(s.reader.conn, Some(s.reader.generation))))
    && |s.channel| <= 1024
    && (s.writer.Writing? ==> IsCurrent(s, s.writer.item))
  }

  /** What has been written lies at or below the floor, in order of generation. */
  ghost predicate Ordered(s: State) {
    && (forall k, conn :: 0 <= k < |s.fates| && Versioned(s.fates[k], conn) ==>
          s.fates[k].item.generation.value <= Floor(s, conn))
    && (forall j, k, conn :: 0 <= j < k < |s.fates| && Versioned(s.fates[j], conn) && Versioned(s.fates[k], conn) ==>
          s.fates[j].item.generation.value <= s.fates[k].item.generation.value)
  }

  function Items(fates: seq<Fate>): seq<Item> {
    if fates == [] then [] else Items(fates[..|fates| - 1]) + [fates[|fates| - 1].item]
  }

  function InHand(writer: Writer): seq<Item> {
    match writer
    case Waiting => []
    case Took(item) => [item]
    case Writing(item) => [item]
  }

  /** No packet is lost, duplicated or reordered between the channel and its fate. */
  ghost predicate Conserved(s: State) {
    s.sent == Items(s.fates) + InHand(s.writer) + s.channel
  }

  ghost predicate Inv(s: State) {
    Current(s) && Ordered(s) && Conserved(s)
  }

  /** A state is later than another: floors have not sunk, old fates stand, and what was written
      since respects the old floor. */
  ghost predicate Later(s: State, t: State) {
    && s.fates <= t.fates
    && (forall conn :: Floor(s, conn) <= Floor(t, conn))
    && forall k, conn :: |s.fates| <= k < |t.fates| && Versioned(t.fates[k], conn) ==>
         Floor(s, conn) <= t.fates[k].item.generation.value
  }

  lemma FloorRises(s: State, s': State)
    requires Ordered(s) && s'.fates == s.fates && forall conn :: Floor(s, conn) <= Floor(s', conn)
    ensures Ordered(s') && Later(s, s')
  {
    hide Floor;
    forall k, conn | 0 <= k < |s'.fates| && Versioned(s'.fates[k], conn)
      ensures s'.fates[k].item.generation.value <= Floor(s', conn)
    {
      assert s.fates[k].item.generation.value <= Floor(s, conn);
    }
  }

  lemma FateAdded(s: State, s': State, fate: Fate)
    requires Ordered(s) && s'.fates == s.fates + [fate] && forall conn :: Floor(s', conn) == Floor(s, conn)
    requires fate.written && fate.item.generation.Some? ==> fate.item.generation.value == Floor(s, fate.item.conn)
    ensures Ordered(s') && Later(s, s')
    ensures Items(s'.fates) == Items(s.fates) + [fate.item]
  {
    hide Floor;
    assert s'.fates[..|s.fates|] == s.fates;
    forall k, conn | 0 <= k < |s'.fates| && Versioned(s'.fates[k], conn)
      ensures s'.fates[k].item.generation.value <= Floor(s', conn)
    {
      assert k < |s.fates| ==> s.fates[k].item.generation.value <= Floor(s, conn);
    }
    forall j, k, conn | 0 <= j < k < |s'.fates| && Versioned(s'.fates[j], conn) && Versioned(s'.fates[k], conn)
      ensures s'.fates[j].item.generation.value <= s'.fates[k].item.generation.value
    {
      assert s.fates[j].item.generation.value <= Floor(s, conn);
    }
  }

  lemma SendConserves(s: State, item: Item)
    requires Conserved(s)
    ensures Conserved(Enqueue(s, item))
  {
    assert Items(s.fates) + InHand(s.writer) + s.channel + [item]
        == Items(s.fates) + InHand(s.writer) + (s.channel + [item]);
  }

  lemma SameChannel(s: State, s': State)
    requires s'.sent == s.sent && s'.fates == s.fates && s'.channel == s.channel && s'.writer == s.writer
    ensures Conserved(s) == Conserved(s')
  {
  }

  lemma ReaderKeeps(s: State, step: Step, s': State)
    requires Inv(s) && NextReader(s, step, s')
    ensures Inv(s') && Later(s, s')
  {
    hide Ordered, Later, Items, Conserved;
    if step.Reply? {
      SendConserves(s, s.reader.item);
    }
    SameChannel(if step.Reply? then Enqueue(s, s.reader.item) else s, s');
    FloorRises(s, s');
  }

  lemma RelayKeeps(s: State, step: Step, s': State)
    requires Inv(s) && NextRelay(s, step, s')
    ensures Inv(s') && Later(s, s')
  {
    hide Ordered, Later, Items;
    if step.RelaySends? {
      SendConserves(s, Item(step.relay.0, Some(step.relay.1)));
    }
    FloorRises(s, s');
  }

  lemma WriterKeeps(s: State, step: Step, s': State)
    requires Inv(s) && NextWriter(s, step, s')
    ensures Inv(s') && Later(s, s')
    ensures step.Check? ==>
      && s.writer.Took?
      && var item := s.writer.item;
         s' == if item.generation.Some? && (item.conn !in s.generations || s.generations[item.conn] != item.generation.value)
               then s.(writer := Waiting, fates := s.fates + [Fate(item, false)])
               else s.(writer := Writing(item))
    ensures step.WriteDone? ==> s.writer.Writing? && s' == s.(writer := Waiting, fates := s.fates + [Fate(s.writer.item, true)])
  {
    hide Ordered, Later, Items;
    if |s'.fates| > |s.fates| {
      FateAdded(s, s', s'.fates[|s.fates|]);
    } else {
      assert step.Take? ==> s.channel == [s.channel[0]] + s.channel[1..];
      FloorRises(s, s');
    }
  }

  lemma {:induction false} LaterTransitive(s: State, t: State, u: State)
    requires Later(s, t) && Later(t, u)
    ensures Later(s, u)
  {
    hide Floor;
    forall k, conn | |s.fates| <= k < |u.fates| && Versioned(u.fates[k], conn)
      ensures Floor(s, conn) <= u.fates[k].item.generation.value
    {
      if k < |t.fates| {
        assert u.fates[k] == t.fates[k];
      } else {
        assert Floor(s, conn) <= Floor(t, conn);
      }
    }
    forall conn
      ensures Floor(s, conn) <= Floor(u, conn)
    {
      assert Floor(s, conn) <= Floor(t, conn) <= Floor(u, conn);
    }
  }

  ghost predicate Run(states: seq<State>, steps: seq<Step>) {
    && |states| == |steps| + 1
    && states[0] == START
    && forall i :: 0 <= i < |steps| ==> Next(states[i], steps[i], states[i + 1])
  }

  lemma NextKeeps(s: State, step: Step, s': State)
    requires Inv(s) && Next(s, step, s')
    ensures Inv(s') && Later(s, s')
  {
    hide Inv, Later, NextReader, NextRelay, NextWriter;
    if NextReader(s, step, s') {
      ReaderKeeps(s, step, s');
    } else if NextRelay(s, step, s') {
      RelayKeeps(s, step, s');
    } else {
      WriterKeeps(s, step, s');
    }
  }

  /** Every state of a run satisfies the invariant and is later than every state before it. */
  lemma {:induction false} RunSafe(states: seq<State>, steps: seq<Step>, i: nat, j: nat)
    requires Run(states, steps) && i <= j <= |steps|
    ensures Inv(states[j]) && Later(states[i], states[j])
    decreases j
  {
    hide Inv, Next, Later;
    if j == 0 {
      StartInv();
    } else {
      assert Next(states[j - 1], steps[j - 1], states[j]);
      RunSafe(states, steps, if i < j then i else j - 1, j - 1);
      NextKeeps(states[j - 1], steps[j - 1], states[j]);
      if i < j {
        LaterTransitive(states[i], states[j - 1], states[j]);
      } else {
        LaterSelf(states[j]);
      }
    }
  }

  lemma StartInv()
    ensures Inv(START) && Later(START, START)
  {
  }

  lemma LaterSelf(s: State)
    ensures Later(s, s)
  {
  }

  /** No stale delivery: from the moment a connection's generation has been replaced by g, no
      packet of a generation before g is written for it; from the moment it has been closed, only
      packets of generations handed out afterwards are. */
  lemma NoStaleDelivery(states: seq<State>, steps: seq<Step>, i: nat, conn: ConnId, k: nat)
    requires Run(states, steps) && i <= |steps|
    requires |states[i].fates| <= k < |states[|steps|].fates|
    requires Versioned(states[|steps|].fates[k], conn)
    ensures var written := states[|steps|].fates[k].item.generation.value;
      if conn in states[i].generations then states[i].generations[conn] <= written
      else states[i].nextGeneration <= written
  {
    hide Inv;
    RunSafe(states, steps, i, |steps|);
    assert Floor(states[i], conn) <= states[|steps|].fates[k].item.generation.value;
  }

  /** Per connection, the generations written never decrease. */
  lemma WrittenGenerationsOrdered(states: seq<State>, steps: seq<Step>, conn: ConnId, j: nat, k: nat)
    requires Run(states, steps) && j < k < |states[|steps|].fates|
    requires Versioned(states[|steps|].fates[j], conn) && Versioned(states[|steps|].fates[k], conn)
    ensures states[|steps|].fates[j].item.generation.value <= states[|steps|].fates[k].item.generation.value
  {
    RunSafe(states, steps, 0, |steps|);
  }

  // ---------------------------------------------------------------- what does reach the client

  /** Records of what was sent and what became of it only grow. */
  lemma RecordsGrow(s: State, step: Step, s': State)
    requires Next(s, step, s')
    ensures s.sent <= s'.sent && s.fates <= s'.fates && |s'.fates| <= |s.fates| + 1
    ensures |s'.fates| > |s.fates| ==> s.writer.Took? || s.writer.Writing?
    ensures |s'.fates| > |s.fates| && !s'.fates[|s.fates|].written ==> step.Check?
  {
  }

  lemma {:induction false} RecordsKept(states: seq<State>, steps: seq<Step>, i: nat, j: nat)
    requires Run(states, steps) && i <= j <= |steps|
    ensures states[i].sent <= states[j].sent && states[i].fates <= states[j].fates
    decreases j
  {
    hide Next;
    if i < j {
      RecordsKept(states, steps, i, j - 1);
      assert Next(states[j - 1], steps[j - 1], states[j]);
      RecordsGrow(states[j - 1], steps[j - 1], states[j]);
    }
  }

  /** When the fate of the n-th packet is decided. */
  lemma {:induction false} Decided(states: seq<State>, steps: seq<Step>, n: nat, j: nat) returns (k: nat)
    requires Run(states, steps) && j <= |steps| && n < |states[j].fates|
    ensures k < j && |states[k].fates| == n < |states[k + 1].fates|
    decreases j
  {
    hide Next;
    assert states[0].fates == [];
    assert Next(states[j - 1], steps[j - 1], states[j]);
    RecordsGrow(states[j - 1], steps[j - 1], states[j]);
    if n < |states[j - 1].fates| {
      k := Decided(states, steps, n, j - 1);
    } else {
      k := j - 1;
    }
  }

  lemma {:induction false} ItemsAt(fates: seq<Fate>)
    ensures |Items(fates)| == |fates| && forall i :: 0 <= i < |fates| ==> Items(fates)[i] == fates[i].item
  {
    if fates != [] {
      ItemsAt(fates[..|fates| - 1]);
    }
  }

  /** Packets meet their fates in the order they were sent. */
  lemma FateOf(s: State, n: nat)
    requires Conserved(s) && n < |s.fates|
    ensures n < |s.sent| && s.fates[n].item == s.sent[n]
  {
    ItemsAt(s.fates);
  }

  /** A packet is dropped only if, when the writer looks, its connection has no generation or another
      than the packet's. */
  lemma DroppedIsStale(states: seq<State>, steps: seq<Step>, n: nat) returns (k: nat)
    requires Run(states, steps) && n < |states[|steps|].fates|
    ensures k < |steps| && |states[k].fates| == n < |states[k + 1].fates|
    ensures !states[|steps|].fates[n].written ==>
      var item := states[|steps|].fates[n].item;
      && states[k].writer == Took(item) && item.generation.Some?
      && (item.conn !in states[k].generations || states[k].generations[item.conn] != item.generation.value)
  {
    hide Inv;
    k := Decided(states, steps, n, |steps|);
    var s, s' := states[k], states[k + 1];
    assert Next(s, steps[k], s');
    RecordsGrow(s, steps[k], s');
    RecordsKept(states, steps, k + 1, |steps|);
    assert states[|steps|].fates[n] == s'.fates[n];
    if !s'.fates[n].written {
      assert NextWriter(s, Check, s');
    }
  }

  /** A packet whose connection is neither replaced nor closed until its fate is decided is written. */
  lemma UnreplacedIsWritten(states: seq<State>, steps: seq<Step>, i: nat, n: nat)
    requires Run(states, steps) && i <= |steps| && |states[i].fates| <= n < |states[|steps|].fates|
    requires var item := states[|steps|].fates[n].item;
      item.generation.Some? ==> forall k :: i <= k <= |steps| ==>
        item.conn in states[k].generations && states[k].generations[item.conn] == item.generation.value
    ensures states[|steps|].fates[n].written
  {
    hide Next;
    var k := DroppedIsStale(states, steps, n);
    if !states[|steps|].fates[n].written {
      DecidedLater(states, steps, i, n, k);
    }
  }

  lemma DecidedLater(states: seq<State>, steps: seq<Step>, i: nat, n: nat, k: nat)
    requires Run(states, steps) && i <= |steps| && k < |steps| && |states[i].fates| <= n
    requires n < |states[k + 1].fates|
    ensures i <= k
  {
    if k < i {
      RecordsKept(states, steps, k + 1, i);
    }
  }

  /** What an open relay sends to a connection that stays its own reaches the client. */
  lemma ReplyReachesClient(states: seq<State>, steps: seq<Step>, i: nat)
    requires Run(states, steps) && i < |steps| && steps[i].RelaySends?
    requires var relay := steps[i].relay; forall k :: i <= k <= |steps| ==>
      relay.0 in states[k].generations && states[k].generations[relay.0] == relay.1
    ensures var n, relay := |states[i].sent|, steps[i].relay;
      n < |states[|steps|].fates| ==> states[|steps|].fates[n] == Fate(Item(relay.0, Some(relay.1)), true)
  {
    hide Inv, Later;
    var n, relay := |states[i].sent|, steps[i].relay;
    if n < |states[|steps|].fates| {
      assert Next(states[i], steps[i], states[i + 1]);
      RunSafe(states, steps, i, i);
      RunSafe(states, steps, i, |steps|);
      RecordsKept(states, steps, i + 1, |steps|);
      SentBeforeDecided(states[i]);
      FateOfLast(states[|steps|], n);
      UnreplacedIsWritten(states, steps, i, n);
    }
  }

  lemma SentBeforeDecided(s: State)
    requires Inv(s)
    ensures |s.fates| <= |s.sent|
  {
    ItemsAt(s.fates);
  }

  lemma FateOfLast(s: State, n: nat)
    requires Inv(s) && n < |s.fates|
    ensures n < |s.sent| && s.fates[n].item == s.sent[n]
  {
    FateOf(s, n);
  }

  /** An opened session is the current one of its connection, with a relay of its own. */
  lemma OpenedIsCurrent(s: State, s': State)
    requires Inv(s) && Next(s, Open(true, true), s')
    ensures s.reader.Resolving? && s'.reader == Idle
    ensures var Resolving(conn, generation, address) := s.reader;
      && conn in s'.sessions && s'.sessions[conn] == Session(generation, address)
      && conn in s'.generations && s'.generations[conn] == generation
      && (conn, generation) in s'.relays
  {
  }

  /** The reader finishes what it has begun: a request it could not deliver is answered under its own
      generation before the next packet is read. */
  lemma ReaderFinishes(s: State, step: Step, s': State)
    requires Next(s, step, s')
    ensures s.reader.Replying? ==>
      s'.reader == s.reader || (step == Reply && s'.reader == Idle && s'.sent == s.sent + [s.reader.item])
    ensures s.reader.Resolving? ==>
      var error := Replying(Item(s.reader.conn, Some(s.reader.generation)));
      || s'.reader == s.reader
      || (step == Open(true, true) && s'.reader == Idle)
      || (s'.reader == error && (step == ResolveFails || (step.Open? && !(step.bound && step.delivered))))
    ensures step.ReadData? ==> s.reader == Idle
    ensures step.ReadData? && !step.delivered && step.conn in s.sessions && s.sessions[step.conn].address == step.address ==>
      s'.reader == Replying(Item(step.conn, Some(s.sessions[step.conn].generation)))
    ensures step.ReadData? && !(step.conn in s.sessions && s.sessions[step.conn].address == step.address) ==>
      s'.reader == Resolving(step.conn, s.nextGeneration, step.address)
  {
  }

  /** What ends a session: a packet that closes or invalidates its connection or names another address,
      or the end of its own relay. */
  predicate EndsSession(step: Step, conn: ConnId, session: Session) {
    || step == ReadClose(conn) || step == ReadInvalid(conn)
    || (step.ReadData? && step.conn == conn && step.address != session.address)
    || step == RelayExits((conn, session.generation)) || step == SessionExpires((conn, session.generation))
  }

  lemma SessionStays(s: State, step: Step, s': State, conn: ConnId)
    requires Inv(s) && Next(s, step, s') && conn in s.sessions && !EndsSession(step, conn, s.sessions[conn])
    ensures conn in s'.sessions && s'.sessions[conn] == s.sessions[conn]
    ensures conn in s'.generations && s'.generations[conn] == s.sessions[conn].generation
  {
    hide Ordered, Conserved;
  }

  lemma {:induction false} SteadySession(states: seq<State>, steps: seq<Step>, i: nat, conn: ConnId, k: nat)
    requires Run(states, steps) && i <= k <= |steps| && conn in states[i].sessions
    requires forall j :: i <= j < |steps| ==> !EndsSession(steps[j], conn, states[i].sessions[conn])
    ensures conn in states[k].sessions && states[k].sessions[conn] == states[i].sessions[conn]
    ensures conn in states[k].generations && states[k].generations[conn] == states[i].sessions[conn].generation
    decreases k
  {
    hide Inv, Next, EndsSession;
    RunSafe(states, steps, k, k);
    if i < k {
      SteadySession(states, steps, i, conn, k - 1);
      RunSafe(states, steps, k - 1, k - 1);
      assert Next(states[k - 1], steps[k - 1], states[k]);
      SessionStays(states[k - 1], steps[k - 1], states[k], conn);
    } else {
      CurrentSession(states[k], conn);
    }
  }

  lemma CurrentSession(s: State, conn: ConnId)
    requires Inv(s) && conn in s.sessions
    ensures conn in s.generations && s.generations[conn] == s.sessions[conn].generation
  {
  }

  /** Data for the address a session is for leaves it alone: as long as nothing else ends it, whatever
      its relay sends and the writer decides about reaches the client. */
  lemma SteadySessionDelivers(states: seq<State>, steps: seq<Step>, i: nat, conn: ConnId, j: nat)
    requires Run(states, steps) && i <= j < |steps| && conn in states[i].sessions
    requires forall k :: i <= k < |steps| ==> !EndsSession(steps[k], conn, states[i].sessions[conn])
    requires steps[j] == RelaySends((conn, states[i].sessions[conn].generation))
    ensures var n := |states[j].sent|;
      n < |states[|steps|].fates| ==>
        states[|steps|].fates[n] == Fate(Item(conn, Some(states[i].sessions[conn].generation)), true)
  {
    hide EndsSession, Next;
    forall k | j <= k <= |steps|
      ensures conn in states[k].generations && states[k].generations[conn] == states[i].sessions[conn].generation
    {
      SteadySession(states, steps, i, conn, k);
    }
    ReplyReachesClient(states, steps, j);
  }

  /** Only live relays send, and they can whenever the channel has room. */
  lemma RelaysSend(s: State, relay: (ConnId, nat), s': State)
    ensures Next(s, RelaySends(relay), s') <==>
      var item := Item(relay.0, Some(relay.1));
      relay in s.relays && |s.channel| < 1024 && s' == s.(channel := s.channel + [item], sent := s.sent + [item])
  {
  }

  /** So does the reader, one reply at a time. */
  lemma ReaderReplies(s: State, s': State)
    ensures Next(s, Reply, s') <==>
      && s.reader.Replying? && |s.channel| < 1024
      && s' == s.(reader := Idle, channel := s.channel + [s.reader.item], sent := s.sent + [s.reader.item])
  {
  }

  /** The end of a relay takes away the session it was opened for, and no later one. */
  lemma RelayEnds(s: State, relay: (ConnId, nat), s': State)
    ensures var left := if relay.0 in s.sessions && s.sessions[relay.0].generation == relay.1 then s.sessions - {relay.0} else s.sessions;
      && (Next(s, RelayExits(relay), s') <==> relay in s.relays && s' == s.(relays := s.relays - {relay}, sessions := left))
      && (Next(s, SessionExpires(relay), s') <==> relay in s.relays && s' == s.(sessions := left))
  {
  }
}
