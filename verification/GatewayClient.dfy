/** The UDP gateway client: the cancellation-safe frame reader, a gateway session and the pool of
    reusable connections (src/udpgw.rs, `handle_udp_gateway_session` in src/lib.rs).
 */
module GatewayClient {
  import opened Base
  import opened GatewayCodec
  import opened Streams

  datatype Response = KeepAlive | Error | TcpClose | Data(packet: Packet) | TooMuchData

  /** `parse_udp_response`: flags decide first, in this order; then the payload size. */
  function ParseResponse(mtu: Word, packet: Packet): Response {
    if HasFlag(packet.flags, ERR) then Error
    else if HasFlag(packet.flags, KEEPALIVE) then KeepAlive
    else if HasFlag(packet.flags, CLOSE) then TcpClose
    else if |packet.data| > mtu then TooMuchData
    else Data(packet)
  }

  /** By the bits of the flags: error is 32, keep-alive 1 and close 4. */
  lemma ResponseByFlags(mtu: Word, packet: Packet)
    ensures var response := ParseResponse(mtu, packet);
      var err, keepalive, close := packet.flags / 32 % 2 == 1, packet.flags % 2 == 1, packet.flags / 4 % 2 == 1;
      && (response.Error? <==> err)
      && (response.KeepAlive? <==> !err && keepalive)
      && (response.TcpClose? <==> !err && !keepalive && close)
      && (response.Data? <==> !err && !keepalive && !close && |packet.data| <= mtu)
      && (response.Data? ==> response.packet == packet)
  {
  }

  // ---------------------------------------------------------------- whole streams

  /** All packets of a byte stream and what is left of it: the meaning of the stream. */
  function Drain(stream: Bytes): Drained<Packet>
    decreases |stream|
  {
    match NextPacket(stream)
    case Wait => Drained([], Rest(stream))
    case Invalid => Drained([], Malformed)
    case Got(packet, length) => Push([packet], Drain(stream[length..]))
  }

  /** What has been decided about the first packet stays decided. */
  lemma NextPacketAppend(first: Bytes, second: Bytes)
    ensures NextPacket(first).Invalid? ==> NextPacket(first + second).Invalid?
    ensures NextPacket(first).Got? ==> NextPacket(first + second) == NextPacket(first)
  {
    if |first| >= LENGTH_FIELD && |first| >= FrameLength(first) {
      var end := FrameLength(first);
      assert (first + second)[LENGTH_FIELD..end] == first[LENGTH_FIELD..end];
    }
  }

  lemma {:induction false} DrainAppend(first: Bytes, second: Bytes)
    ensures match Drain(first)
            case Drained(packets, Malformed) => Drain(first + second) == Drained(packets, Malformed)
            case Drained(packets, Rest(rest)) =>
              NextPacket(rest).Wait? && Drain(first + second) == Push(packets, Drain(rest + second))
    decreases |first|
  {
    hide NextPacket;
    NextPacketAppend(first, second);
    match NextPacket(first)
    case Invalid =>
    case Wait => PushNothing(Drain(first + second));
    case Got(packet, length) =>
      var rest := first[length..];
      assert (first + second)[length..] == rest + second;
      DrainAppend(rest, second);
      if Drain(rest).end.Rest? {
        PushPush([packet], Drain(rest).items, Drain(Drain(rest).end.bytes + second));
      }
  }

  /** A stream of whole packets. */
  ghost predicate AtBoundary(stream: Bytes) {
    Drain(stream).end == Rest([])
  }

  lemma BoundaryAppend(first: Bytes, second: Bytes)
    requires AtBoundary(first) && AtBoundary(second)
    ensures AtBoundary(first + second)
  {
    hide Drain;
    DrainAppend(first, second);
    assert [] + second == second;
  }

  // ---------------------------------------------------------------- the reader

  /** What a suspended read can end with; a read of no bytes is `Eof`. */
  datatype Arrival = Chunk(bytes: Bytes) | Eof | TimedOut | Cancelled

  function Received(arrivals: seq<Arrival>): Bytes {
    if arrivals == [] then []
    else
      var last := arrivals[|arrivals| - 1];
      Received(arrivals[..|arrivals| - 1]) + BytesOf(last)
  }

  function BytesOf(arrival: Arrival): Bytes {
    if arrival.Chunk? then arrival.bytes else []
  }

  lemma ReceivedNext(buffered: Bytes, arrivals: seq<Arrival>, n: nat)
    requires n < |arrivals|
    ensures buffered + Received(arrivals[..n + 1]) == buffered + Received(arrivals[..n]) + BytesOf(arrivals[n])
  {
    assert arrivals[..n + 1][..n] == arrivals[..n];
  }

  datatype Outcome =
    | Frame(packet: Packet, length: nat, response: Response)
    | BadFrame
    | Failed
    | Dropped
    | Pending

  /** What a call over the bytes `whole` returns, and what it leaves in the buffer. */
  ghost predicate Settled(mtu: Word, whole: Bytes, outcome: Outcome, buffer: Bytes) {
    match outcome
    case Frame(packet, length, response) =>
      && NextPacket(whole) == Got(packet, length)
      && buffer == whole[length..]
      && response == ParseResponse(mtu, packet)
    case BadFrame => NextPacket(whole).Invalid? && buffer == whole
    case _ => NextPacket(whole).Wait? && buffer == whole
  }

  datatype Waited = Waited(outcome: Outcome, taken: nat, buffer: Bytes)

  /** A call that waits for no more than its first packet needs, and not beyond the end of the socket
      or the call. */
  ghost predicate Receives(mtu: Word, buffered: Bytes, arrivals: seq<Arrival>, w: Waited) {
    && w.taken <= |arrivals|
    && Settled(mtu, buffered + Received(arrivals[..w.taken]), w.outcome, w.buffer)
    && (forall t :: 0 <= t < w.taken ==> NextPacket(buffered + Received(arrivals[..t])).Wait?)
    && (forall t :: 0 <= t < w.taken - 1 ==> arrivals[t].Chunk?)
    && (w.outcome.Dropped? <==> w.taken > 0 && arrivals[w.taken - 1].Cancelled?)
    && (w.outcome.Failed? <==> w.taken > 0 && (arrivals[w.taken - 1].Eof? || arrivals[w.taken - 1].TimedOut?))
    && (w.outcome.Pending? ==> w.taken == |arrivals|)
  }

  /** That leaves one way a call can end. */
  lemma ReceivesUnique(mtu: Word, buffered: Bytes, arrivals: seq<Arrival>, one: Waited, two: Waited)
    requires Receives(mtu, buffered, arrivals, one) && Receives(mtu, buffered, arrivals, two)
    ensures one == two
  {
    hide NextPacket, Received, ParseResponse;
  }

  class FrameReader {
    var acc: Bytes

    constructor ()
      ensures acc == []
    {
      acc := [];
    }

    /** One call of the reader over the arrivals it waits for. It returns the first packet of what
        is buffered and arrives, and takes nothing more from the socket once that is complete. Not
        a byte is lost on any path: what is not returned as a packet stays in the buffer. */
    method Receive(mtu: Word, arrivals: seq<Arrival>) returns (outcome: Outcome, taken: nat)
      modifies this
      ensures Receives(mtu, old(acc), arrivals, Waited(outcome, taken, acc))
    {
      hide NextPacket, ParseResponse, Received;
      taken := 0;
      ghost var buffered := acc;
      assert acc + Received(arrivals[..0]) == acc by { NothingReceived(arrivals[..0]); }
      while true
        invariant taken <= |arrivals|
        invariant acc == buffered + Received(arrivals[..taken])
        invariant forall t :: 0 <= t < taken ==> arrivals[t].Chunk?
        invariant forall t :: 0 <= t < taken ==> NextPacket(buffered + Received(arrivals[..t])).Wait?
        decreases |arrivals| - taken
      {
        match NextPacket(acc)
        case Got(packet, length) =>
          acc := acc[length..];
          return Frame(packet, length, ParseResponse(mtu, packet)), taken;
        case Invalid => return BadFrame, taken;
        case Wait =>
        if taken == |arrivals| {
          return Pending, taken;
        }
        ReceivedNext(buffered, arrivals, taken);
        assert acc + [] == acc;
        match arrivals[taken]
        case Chunk(bytes) =>
          acc := acc + bytes;
          taken := taken + 1;
        case Cancelled => return Dropped, taken + 1;
        case _ => return Failed, taken + 1;
      }
    }
  }

  lemma {:induction false} ReceivedAppend(left: seq<Arrival>, right: seq<Arrival>)
    ensures Received(left + right) == Received(left) + Received(right)
    decreases |right|
  {
    hide Received, BytesOf;
    if right == [] {
      assert left + right == left;
      NothingReceived(right);
      assert Received(left) + [] == Received(left);
    } else {
      var n := |right| - 1;
      ReceivedAppend(left, right[..n]);
      ReceivedNext([], right, n);
      ReceivedNext([], left + right, |left| + n);
      Trimmed(left, right);
      assert Received(left) + Received(right[..n]) + BytesOf(right[n]) == Received(left) + (Received(right[..n]) + BytesOf(right[n]));
    }
  }

  lemma Trimmed(left: seq<Arrival>, right: seq<Arrival>)
    requires right != []
    ensures right[..|right|] == right && (left + right)[..|left| + |right|] == left + right
    ensures (left + right)[..|left| + |right| - 1] == left + right[..|right| - 1]
    ensures (left + right)[|left| + |right| - 1] == right[|right| - 1]
    ensures forall bytes: Bytes :: [] + bytes == bytes
  {
  }

  /** Calling the reader again and again, with any of the calls cancelled at any read, yields the
      packets of the stream and keeps its unfinished rest: exactly what decoding the whole stream
      at once gives. */
  method ReadAll(reader: FrameReader, mtu: Word, arrivals: seq<Arrival>) returns (packets: seq<Packet>, broken: bool)
    requires forall arrival :: arrival in arrivals ==> arrival.Chunk? || arrival.Cancelled?
    modifies reader
    ensures Drain(old(reader.acc) + Received(arrivals)) == Drained(packets, if broken then Malformed else Rest(reader.acc))
  {
    hide Drain, NextPacket, Received;
    ghost var stream := reader.acc + Received(arrivals);
    packets := [];
    var at := 0;
    PushNothing(Drain(stream));
    assert arrivals[0..] == arrivals;
    while true
      invariant 0 <= at <= |arrivals|
      invariant Drain(stream) == Push(packets, Drain(reader.acc + Received(arrivals[at..])))
      decreases |arrivals| - at, |reader.acc|
    {
      ghost var buffered := reader.acc;
      var outcome, taken := reader.Receive(mtu, arrivals[at..]);
      SplitArrivals(buffered, arrivals, at, taken);
      ghost var whole := buffered + Received(arrivals[at..][..taken]);
      ghost var later := Received(arrivals[at + taken..]);
      DrainStep(whole, later);
      at := at + taken;
      if outcome.Frame? {
        PushPush(packets, [outcome.packet], Drain(whole[outcome.length..] + later));
        packets := packets + [outcome.packet];
      } else if !outcome.Dropped? {
        assert packets + [] == packets;
        if outcome.Pending? {
          NothingReceived(arrivals[at..]);
          assert whole + [] == whole;
        }
        return packets, outcome.BadFrame?;
      }
    }
  }

  lemma SplitArrivals(buffered: Bytes, arrivals: seq<Arrival>, at: nat, taken: nat)
    requires at + taken <= |arrivals|
    ensures buffered + Received(arrivals[at..])
         == buffered + Received(arrivals[at..][..taken]) + Received(arrivals[at + taken..])
  {
    hide Received;
    var future := arrivals[at..];
    assert future == future[..taken] + future[taken..];
    assert future[taken..] == arrivals[at + taken..];
    ReceivedAppend(future[..taken], future[taken..]);
  }

  lemma NothingReceived(arrivals: seq<Arrival>)
    ensures arrivals == [] ==> Received(arrivals) == []
  {
  }

  lemma DrainStep(whole: Bytes, later: Bytes)
    ensures NextPacket(whole).Got? ==>
      Drain(whole + later) == Push([NextPacket(whole).packet], Drain(whole[NextPacket(whole).length..] + later))
    ensures NextPacket(whole).Invalid? ==> Drain(whole + later) == Drained([], Malformed)
    ensures NextPacket(whole).Wait? ==> Drain(whole) == Drained([], Rest(whole))
  {
    NextPacketAppend(whole, later);
    if NextPacket(whole).Got? {
      assert (whole + later)[NextPacket(whole).length..] == whole[NextPacket(whole).length..] + later;
    }
  }

  // ---------------------------------------------------------------- a gateway session

  datatype Local = Datagram(forwarded: bool) | LocalEnd

  /** One turn of the select loop: what the reader would receive, what the application side has,
      whether that side is served first, and whether a reply could be handed to the application. */
  datatype Turn = Turn(arrivals: seq<Arrival>, local: Local, localFirst: bool, accepted: bool)

  /** The payloads in `packets` addressed to this session's connection id. */
  function Payloads(mtu: Word, serial: Word, packets: seq<Packet>): seq<Bytes> {
    if packets == [] then []
    else
      var last := packets[|packets| - 1];
      Payloads(mtu, serial, packets[..|packets| - 1])
      + (if ParseResponse(mtu, last).Data? && last.conn == serial then [last.data] else [])
  }

  lemma DrainNothing()
    ensures Drain([]) == Drained([], Rest([]))
  {
  }

  /** A stream whose first packets are handled stays decoded as more bytes arrive. */
  lemma ArrivalKeeps(consumed: Bytes, handled: seq<Packet>, buffered: Bytes, arrived: Bytes)
    requires Drain(consumed) == Push(handled, Drain(buffered))
    ensures Drain(consumed + arrived) == Push(handled, Drain(buffered + arrived))
  {
    hide Drain, NextPacket;
    DrainAppend(consumed, arrived);
    DrainAppend(buffered, arrived);
    if Drain(buffered).end.Rest? {
      PushPush(handled, Drain(buffered).items, Drain(Drain(buffered).end.bytes + arrived));
    }
  }

  lemma HandleNext(handled: seq<Packet>, whole: Bytes)
    requires NextPacket(whole).Got?
    ensures var next := NextPacket(whole);
      Push(handled, Drain(whole)) == Push(handled + [next.packet], Drain(whole[next.length..]))
  {
    hide NextPacket;
    var next := NextPacket(whole);
    PushPush(handled, [next.packet], Drain(whole[next.length..]));
  }

  /** Why a session ended, if it did. */
  datatype Ending = Running | LocalEnded | LocalRefused | SendFailed | ServerEnded | ReadFailed

  /** Late errors and data never end a session or a keep-alive wait. */
  predicate Ignored(mtu: Word, packet: Packet) {
    ParseResponse(mtu, packet).Data? || ParseResponse(mtu, packet).Error?
  }

  ghost predicate AllIgnored(mtu: Word, packets: seq<Packet>) {
    forall i :: 0 <= i < |packets| ==> Ignored(mtu, packets[i])
  }

  /** What a session has done with the packets it has handled: its own payloads are handed on in
      order, and only its last packet can have ended it. */
  ghost predicate Relayed(mtu: Word, serial: Word, ending: Ending, handled: seq<Packet>, delivered: seq<Bytes>, refused: seq<Bytes>) {
    && delivered + refused == Payloads(mtu, serial, handled)
    && (if ending.LocalRefused? then |refused| == 1 else refused == [])
    && (if ending.ServerEnded? then handled != [] && !Ignored(mtu, handled[|handled| - 1]) && AllIgnored(mtu, handled[..|handled| - 1])
        else AllIgnored(mtu, handled))
  }

  predicate Own(mtu: Word, serial: Word, packet: Packet) {
    ParseResponse(mtu, packet).Data? && packet.conn == serial
  }

  lemma RelayNext(mtu: Word, serial: Word, handled: seq<Packet>, delivered: seq<Bytes>, packet: Packet)
    requires Relayed(mtu, serial, Running, handled, delivered, [])
    ensures !Ignored(mtu, packet) ==> Relayed(mtu, serial, ServerEnded, handled + [packet], delivered, [])
    ensures Own(mtu, serial, packet) ==>
      && Relayed(mtu, serial, Running, handled + [packet], delivered + [packet.data], [])
      && Relayed(mtu, serial, LocalRefused, handled + [packet], delivered, [packet.data])
    ensures Ignored(mtu, packet) && !Own(mtu, serial, packet) ==> Relayed(mtu, serial, Running, handled + [packet], delivered, [])
  {
    hide ParseResponse;
    assert (handled + [packet])[..|handled|] == handled;
  }

  /** A session: all it has read, what of that is still buffered, and what it has done with the rest. */
  datatype Session = Session(
    ending: Ending, handled: seq<Packet>, delivered: seq<Bytes>, refused: seq<Bytes>, consumed: Bytes, rest: Bytes)

  const IDLE: Session := Session(Running, [], [], [], [], [])

  function AfterLocal(local: Local, s: Session): Session {
    match local
    case LocalEnd => s.(ending := LocalEnded)
    case Datagram(forwarded) => if forwarded then s else s.(ending := SendFailed)
  }

  /** After a call of the reader that ended as `w`; a call that still waits gives way to the local side. */
  function AfterReceive(serial: Word, turn: Turn, s: Session, w: Waited): Session
    requires w.taken <= |turn.arrivals|
  {
    var read := s.(consumed := s.consumed + Received(turn.arrivals[..w.taken]), rest := w.buffer);
    match w.outcome
    case Frame(packet, _, response) =>
      var next := read.(handled := s.handled + [packet]);
      if response.Data? && packet.conn == serial then
        if turn.accepted then next.(delivered := s.delivered + [packet.data])
        else next.(refused := [packet.data], ending := LocalRefused)
      else if response.Data? || response.Error? then next
      else next.(ending := ServerEnded)
    case Pending => AfterLocal(turn.local, read)
    case _ => read.(ending := ReadFailed)
  }

  ghost predicate Turned(mtu: Word, serial: Word, turn: Turn, s: Session, t: Session) {
    s.ending.Running? &&
    if turn.localFirst then t == AfterLocal(turn.local, s)
    else exists w: Waited :: w.taken <= |turn.arrivals| && Receives(mtu, s.rest, turn.arrivals, w) && t == AfterReceive(serial, turn, s, w)
  }

  /** The states of a session: one for every turn, until one ends it. */
  ghost predicate Trace(mtu: Word, serial: Word, turns: seq<Turn>, trace: seq<Session>) {
    && 0 < |trace| <= |turns| + 1 && trace[0] == IDLE
    && (forall k :: 0 <= k < |trace| - 1 ==> Turned(mtu, serial, turns[k], trace[k], trace[k + 1]))
    && (trace[|trace| - 1].ending.Running? ==> |trace| == |turns| + 1)
  }

  lemma TurnedUnique(mtu: Word, serial: Word, turn: Turn, s: Session, one: Session, two: Session)
    requires Turned(mtu, serial, turn, s, one) && Turned(mtu, serial, turn, s, two)
    ensures one == two
  {
    hide Receives, AfterReceive;
    if !turn.localFirst {
      var v: Waited :| v.taken <= |turn.arrivals| && Receives(mtu, s.rest, turn.arrivals, v) && one == AfterReceive(serial, turn, s, v);
      var w: Waited :| w.taken <= |turn.arrivals| && Receives(mtu, s.rest, turn.arrivals, w) && two == AfterReceive(serial, turn, s, w);
      ReceivesUnique(mtu, s.rest, turn.arrivals, v, w);
    }
  }

  /** What a turn can end a session with, by what it brings. */
  lemma EndingByTurn(mtu: Word, serial: Word, turn: Turn, s: Session, t: Session)
    requires Turned(mtu, serial, turn, s, t)
    ensures turn.localFirst ==>
      && t == s.(ending := t.ending)
      && t.ending == match turn.local case LocalEnd => LocalEnded case Datagram(true) => Running case Datagram(false) => SendFailed
    ensures t.ending.LocalEnded? ==> turn.local.LocalEnd?
    ensures t.ending.SendFailed? ==> turn.local == Datagram(false)
    ensures t.ending.LocalRefused? ==> !turn.accepted && |t.refused| == 1
    ensures s.consumed <= t.consumed && s.handled <= t.handled && s.delivered <= t.delivered
  {
    hide NextPacket, ParseResponse, Received;
  }

  lemma {:induction false} TraceAgrees(mtu: Word, serial: Word, turns: seq<Turn>, one: seq<Session>, two: seq<Session>, k: nat)
    requires Trace(mtu, serial, turns, one) && Trace(mtu, serial, turns, two) && k < |one| && k < |two|
    ensures one[k] == two[k]
  {
    if k > 0 {
      TraceAgrees(mtu, serial, turns, one, two, k - 1);
      assert Turned(mtu, serial, turns[k - 1], one[k - 1], one[k]);
      assert Turned(mtu, serial, turns[k - 1], two[k - 1], two[k]);
      TurnedUnique(mtu, serial, turns[k - 1], one[k - 1], one[k], two[k]);
    }
  }

  /** What a session reads, delivers and ends with is decided by its turns. */
  lemma TraceUnique(mtu: Word, serial: Word, turns: seq<Turn>, one: seq<Session>, two: seq<Session>)
    requires Trace(mtu, serial, turns, one) && Trace(mtu, serial, turns, two)
    ensures one == two
  {
    hide Turned;
    forall k | 0 <= k < |one| && k < |two|
      ensures one[k] == two[k]
    {
      TraceAgrees(mtu, serial, turns, one, two, k);
    }
    Stops(mtu, serial, turns, one);
    Stops(mtu, serial, turns, two);
  }

  lemma Stops(mtu: Word, serial: Word, turns: seq<Turn>, trace: seq<Session>)
    requires Trace(mtu, serial, turns, trace)
    ensures forall k :: 0 <= k < |trace| - 1 ==> trace[k].ending.Running?
    ensures !trace[|trace| - 1].ending.Running? || |trace| == |turns| + 1
  {
    forall k | 0 <= k < |trace| - 1
      ensures trace[k].ending.Running?
    {
      assert Turned(mtu, serial, turns[k], trace[k], trace[k + 1]);
    }
  }

  /** The packets handled are the first of the stream, and its own payloads are handed on in order. */
  ghost predicate InOrder(mtu: Word, serial: Word, s: Session) {
    && Relayed(mtu, serial, s.ending, s.handled, s.delivered, s.refused)
    && Drain(s.consumed) == Push(s.handled, Drain(s.rest))
  }

  lemma LocalKeepsOrder(mtu: Word, serial: Word, local: Local, s: Session)
    requires InOrder(mtu, serial, s) && s.ending.Running?
    ensures InOrder(mtu, serial, AfterLocal(local, s))
  {
    hide Drain, Payloads, Ignored;
  }

  lemma ReceiveKeepsOrder(mtu: Word, serial: Word, turn: Turn, s: Session, w: Waited)
    requires InOrder(mtu, serial, s) && s.ending.Running?
    requires Receives(mtu, s.rest, turn.arrivals, w)
    ensures InOrder(mtu, serial, AfterReceive(serial, turn, s, w))
  {
    hide Drain, NextPacket, ParseResponse, Relayed, Payloads, Received, AfterLocal;
    var arrived := Received(turn.arrivals[..w.taken]);
    ArrivalKeeps(s.consumed, s.handled, s.rest, arrived);
    var read := s.(consumed := s.consumed + arrived, rest := w.buffer);
    NotRefused(mtu, serial, s);
    match w.outcome
    case Frame(packet, _, response) =>
      HandleNext(s.handled, s.rest + arrived);
      RelayNext(mtu, serial, s.handled, s.delivered, packet);
    case Pending =>
      assert InOrder(mtu, serial, read);
      LocalKeepsOrder(mtu, serial, turn.local, read);
    case _ =>
      EndRelay(mtu, serial, s.handled, s.delivered);
  }

  lemma NotRefused(mtu: Word, serial: Word, s: Session)
    requires Relayed(mtu, serial, s.ending, s.handled, s.delivered, s.refused) && s.ending.Running?
    ensures s.refused == []
  {
  }

  lemma {:induction false} TraceInOrder(mtu: Word, serial: Word, turns: seq<Turn>, trace: seq<Session>, k: nat)
    requires Trace(mtu, serial, turns, trace) && k < |trace|
    ensures InOrder(mtu, serial, trace[k])
  {
    hide InOrder, Receives, AfterReceive, AfterLocal;
    if k == 0 {
      IdleInOrder(mtu, serial);
    } else {
      TraceInOrder(mtu, serial, turns, trace, k - 1);
      var turn, s := turns[k - 1], trace[k - 1];
      assert Turned(mtu, serial, turn, s, trace[k]);
      if turn.localFirst {
        LocalKeepsOrder(mtu, serial, turn.local, s);
      } else {
        var w: Waited :|
          w.taken <= |turn.arrivals| && Receives(mtu, s.rest, turn.arrivals, w) && trace[k] == AfterReceive(serial, turn, s, w);
        ReceiveKeepsOrder(mtu, serial, turn, s, w);
      }
    }
  }

  lemma IdleInOrder(mtu: Word, serial: Word)
    ensures InOrder(mtu, serial, IDLE)
  {
    hide Drain;
    PushNothing(Drain([]));
  }

  /** A session over a connection that stands at a packet boundary. Only data and errors let it go on,
      and it gives the connection back exactly if the local side ended it with nothing buffered: at a
      packet boundary of all it has read. */
  method GatewaySession(serial: Word, mtu: Word, turns: seq<Turn>, closeSent: bool)
    returns (pooled: bool, session: Session, ghost trace: seq<Session>)
    requires forall turn, arrival :: turn in turns && arrival in turn.arrivals ==> !arrival.Cancelled?
    ensures Trace(mtu, serial, turns, trace) && session == trace[|trace| - 1]
    ensures InOrder(mtu, serial, session)
    ensures pooled <==> (session.ending.LocalEnded? || session.ending.LocalRefused?) && session.rest == [] && closeSent
    ensures pooled ==> AtBoundary(session.consumed)
  {
    hide Drain, ParseResponse, Received, Receives, InOrder, Turned;
    var reader := new FrameReader();
    session := IDLE;
    trace := [session];
    var i := 0;
    while i < |turns| && session.ending.Running?
      invariant 0 <= i <= |turns| && |trace| == i + 1 && trace[0] == IDLE && session == trace[i]
      invariant forall k :: 0 <= k < i ==> Turned(mtu, serial, turns[k], trace[k], trace[k + 1])
      invariant reader.acc == session.rest
      invariant fresh(reader)
    {
      var turn := turns[i];
      ghost var before, w := session, Waited(Pending, 0, []);
      if turn.localFirst {
        session := AfterLocal(turn.local, session);
      } else {
        var outcome, taken := reader.Receive(mtu, turn.arrivals);
        w := Waited(outcome, taken, reader.acc);
        Taken(mtu, before.rest, turn.arrivals, w);
        session := session.(consumed := session.consumed + Received(turn.arrivals[..taken]), rest := reader.acc);
        match outcome
        case Frame(packet, _, response) =>
          session := session.(handled := session.handled + [packet]);
          if response.Data? && packet.conn == serial {
            if turn.accepted {
              session := session.(delivered := session.delivered + [packet.data]);
            } else {
              session := session.(refused := [packet.data], ending := LocalRefused);
            }
          } else if !response.Data? && !response.Error? {
            session := session.(ending := ServerEnded);
          }
        case Pending => session := AfterLocal(turn.local, session);
        case _ => session := session.(ending := ReadFailed);
      }
      TurnTaken(mtu, serial, turn, before, session, w);
      trace := trace + [session];
      i := i + 1;
    }
    TraceInOrder(mtu, serial, turns, trace, i);
    pooled := (session.ending.LocalEnded? || session.ending.LocalRefused?) && session.rest == [] && closeSent;
    EmptyRestIsBoundary(mtu, serial, session);
  }

  lemma Taken(mtu: Word, buffered: Bytes, arrivals: seq<Arrival>, w: Waited)
    requires Receives(mtu, buffered, arrivals, w)
    ensures w.taken <= |arrivals|
  {
  }

  lemma TurnTaken(mtu: Word, serial: Word, turn: Turn, s: Session, t: Session, w: Waited)
    requires s.ending.Running?
    requires if turn.localFirst then t == AfterLocal(turn.local, s)
      else w.taken <= |turn.arrivals| && Receives(mtu, s.rest, turn.arrivals, w) && t == AfterReceive(serial, turn, s, w)
    ensures Turned(mtu, serial, turn, s, t)
  {
    hide Receives, AfterReceive, AfterLocal;
  }

  lemma EmptyRestIsBoundary(mtu: Word, serial: Word, s: Session)
    requires InOrder(mtu, serial, s)
    ensures s.rest == [] ==> AtBoundary(s.consumed)
  {
    DrainNothing();
  }

  lemma EndRelay(mtu: Word, serial: Word, handled: seq<Packet>, delivered: seq<Bytes>)
    requires Relayed(mtu, serial, Running, handled, delivered, [])
    ensures Relayed(mtu, serial, LocalEnded, handled, delivered, [])
    ensures Relayed(mtu, serial, SendFailed, handled, delivered, [])
    ensures Relayed(mtu, serial, ReadFailed, handled, delivered, [])
  {
  }

  // ---------------------------------------------------------------- the connection pool

  lemma NextPacketExact(buffer: Bytes)
    requires NextPacket(buffer).Got?
    ensures NextPacket(buffer[..NextPacket(buffer).length]) == NextPacket(buffer)
  {
    var end := NextPacket(buffer).length;
    assert buffer[..end][LENGTH_FIELD..end] == buffer[LENGTH_FIELD..end];
  }

  /** Reading one more packet goes from one packet boundary to the next. */
  lemma BoundaryStep(stream: Bytes, at: nat, packets: seq<Packet>)
    requires at <= |stream| && Drain(stream[..at]) == Drained(packets, Rest([]))
    requires NextPacket(stream[at..]).Got?
    ensures var next := NextPacket(stream[at..]);
      Drain(stream[..at + next.length]) == Drained(packets + [next.packet], Rest([]))
  {
    hide NextPacket;
    var next := NextPacket(stream[at..]);
    var frame := stream[at..][..next.length];
    NextPacketExact(stream[at..]);
    assert frame[next.length..] == [];
    DrainNothing();
    assert Drain(frame) == Drained([next.packet], Rest([]));
    DrainAppend(stream[..at], frame);
    assert [] + frame == frame;
    assert stream[..at] + frame == stream[..at + next.length];
  }

  /** Where the first answer to a keep-alive ends, if only late data and errors come before it. */
  function AnswerEnd(mtu: Word, stream: Bytes): (end: Option<nat>)
    ensures end.Some? ==> end.value <= |stream|
    decreases |stream|
  {
    match NextPacket(stream)
    case Got(packet, length) =>
      if ParseResponse(mtu, packet).KeepAlive? then Some(length)
      else if !Ignored(mtu, packet) then None
      else
        (match AnswerEnd(mtu, stream[length..])
         case Some(end) => Some(length + end)
         case None => None)
    case _ => None
  }

  function Shifted(at: nat, end: Option<nat>): Option<nat> {
    if end.Some? then Some(at + end.value) else None
  }

  lemma AnswerStep(mtu: Word, reply: Bytes, at: nat)
    requires at <= |reply|
    ensures var next := NextPacket(reply[at..]);
      Shifted(at, AnswerEnd(mtu, reply[at..])) ==
        if !next.Got? then None
        else if ParseResponse(mtu, next.packet).KeepAlive? then Some(at + next.length)
        else if !Ignored(mtu, next.packet) then None
        else Shifted(at + next.length, AnswerEnd(mtu, reply[at + next.length..]))
  {
    hide NextPacket, ParseResponse;
    var next := NextPacket(reply[at..]);
    if next.Got? {
      assert reply[at..][next.length..] == reply[at + next.length..];
    }
  }

  /** The wait for a keep-alive answer, over the bytes the server sends before the read times out.
      It skips late data and errors, and ends right behind the answer, at a packet boundary. */
  method AwaitKeepAlive(mtu: Word, reply: Bytes) returns (end: Option<nat>)
    ensures end == AnswerEnd(mtu, reply)
    ensures end.Some? ==> AtBoundary(reply[..end.value])
  {
    hide Drain, NextPacket, Retrieve, ParseResponse, AnswerEnd;
    var at := 0;
    ghost var skipped: seq<Packet> := [];
    DrainNothing();
    assert reply[..0] == [] && reply[0..] == reply;
    while true
      invariant at <= |reply|
      invariant Drain(reply[..at]) == Drained(skipped, Rest([]))
      invariant AnswerEnd(mtu, reply) == Shifted(at, AnswerEnd(mtu, reply[at..]))
      decreases |reply| - at
    {
      DecodersAgree(reply[at..]);
      AnswerStep(mtu, reply, at);
      var next := Retrieve(reply[at..]);
      if !next.Got? {
        return None;
      }
      BoundaryStep(reply, at, skipped);
      var response := ParseResponse(mtu, next.packet);
      if response.KeepAlive? {
        return Some(at + next.length);
      }
      if !response.Data? && !response.Error? {
        return None;
      }
      skipped := skipped + [next.packet];
      at := at + next.length;
    }
  }

  /** An idle connection; `consumed` is all that has been read from its socket. */
  datatype Connection = Connection(serial: Word, lastActivity: nat, closed: bool, consumed: Bytes)

  /** What a heartbeat keeps of a connection: one that was active as it is, another if the server
      answers, from behind the answer on. */
  function Kept(mtu: Word, now: nat, keepalive: nat, stream: Connection, reply: Option<Bytes>): seq<Connection> {
    if now < stream.lastActivity + keepalive then [stream]
    else if reply.Some? && AnswerEnd(mtu, reply.value).Some?
    then [stream.(lastActivity := now, consumed := stream.consumed + reply.value[..AnswerEnd(mtu, reply.value).value])]
    else []
  }

  /** What it keeps of each connection, in order. */
  function KeptAll(mtu: Word, now: nat, keepalive: nat, streams: seq<Connection>, replies: nat -> Option<Bytes>): seq<Connection> {
    if streams == [] then []
    else
      var n := |streams| - 1;
      KeptAll(mtu, now, keepalive, streams[..n], replies) + Kept(mtu, now, keepalive, streams[n], replies(n))
  }

  lemma KeptAllStep(mtu: Word, now: nat, keepalive: nat, streams: seq<Connection>, replies: nat -> Option<Bytes>, i: nat)
    requires i < |streams|
    ensures KeptAll(mtu, now, keepalive, streams[..i + 1], replies)
         == KeptAll(mtu, now, keepalive, streams[..i], replies) + Kept(mtu, now, keepalive, streams[i], replies(i))
  {
    assert streams[..i + 1][..i] == streams[..i];
  }

  /** One of the connections was not active, and the server has just answered on it. */
  ghost predicate HasAnswered(mtu: Word, now: nat, keepalive: nat, streams: seq<Connection>, replies: nat -> Option<Bytes>, c: Connection) {
    exists k :: 0 <= k < |streams| && now >= streams[k].lastActivity + keepalive && c in Kept(mtu, now, keepalive, streams[k], replies(k))
  }

  /** Active connections stay as they are, what else is kept has just answered, and there are no more
      than there were. */
  lemma {:induction false} KeptAllMeaning(mtu: Word, now: nat, keepalive: nat, streams: seq<Connection>, replies: nat -> Option<Bytes>)
    ensures |KeptAll(mtu, now, keepalive, streams, replies)| <= |streams|
    ensures forall c :: c in KeptAll(mtu, now, keepalive, streams, replies) <==>
      (c in streams && now < c.lastActivity + keepalive) || HasAnswered(mtu, now, keepalive, streams, replies, c)
  {
    if streams != [] {
      hide Kept, HasAnswered;
      var n := |streams| - 1;
      var front, last := streams[..n], streams[n];
      KeptAllMeaning(mtu, now, keepalive, front, replies);
      assert streams == front + [last];
      KeptOne(mtu, now, keepalive, last, replies(n));
      AnsweredStep(mtu, now, keepalive, front, replies, last);
    }
  }

  lemma KeptOne(mtu: Word, now: nat, keepalive: nat, stream: Connection, reply: Option<Bytes>)
    ensures |Kept(mtu, now, keepalive, stream, reply)| <= 1
    ensures now < stream.lastActivity + keepalive ==> Kept(mtu, now, keepalive, stream, reply) == [stream]
  {
  }

  lemma AnsweredStep(mtu: Word, now: nat, keepalive: nat, front: seq<Connection>, replies: nat -> Option<Bytes>, last: Connection)
    ensures forall c :: HasAnswered(mtu, now, keepalive, front + [last], replies, c) <==>
      || HasAnswered(mtu, now, keepalive, front, replies, c)
      || (now >= last.lastActivity + keepalive && c in Kept(mtu, now, keepalive, last, replies(|front|)))
  {
    hide Kept;
    var all := front + [last];
    assert all[|front|] == last && forall k :: 0 <= k < |front| ==> all[k] == front[k];
  }

  /** What other flows do with the pool meanwhile; `Serial` is one that takes the next serial number. */
  datatype PoolStep = Pop | Put(connection: Connection) | Serial

  function AfterStep(limit: nat, idle: seq<Connection>, step: PoolStep): seq<Connection> {
    match step
    case Pop => if idle == [] then [] else idle[1..]
    case Put(connection) => if |idle| < limit then idle + [connection] else idle
    case Serial => idle
  }

  /** The queue after other flows' steps. */
  function AfterSteps(limit: nat, idle: seq<Connection>, steps: seq<PoolStep>): seq<Connection> {
    if steps == [] then idle
    else AfterStep(limit, AfterSteps(limit, idle, steps[..|steps| - 1]), steps[|steps| - 1])
  }

  function SerialAfter(serial: Word, steps: seq<PoolStep>): Word {
    if steps == [] then serial
    else
      var before := SerialAfter(serial, steps[..|steps| - 1]);
      if steps[|steps| - 1].Serial? then (before + 1) % 0x1_0000 else before
  }

  /** Nothing is in the queue but what was there or what they have put there. */
  lemma {:induction false} AfterStepsFrom(limit: nat, idle: seq<Connection>, steps: seq<PoolStep>)
    ensures forall c :: c in AfterSteps(limit, idle, steps) ==> c in idle || Put(c) in steps
  {
    if steps != [] {
      var n := |steps| - 1;
      AfterStepsFrom(limit, idle, steps[..n]);
      assert steps == steps[..n] + [steps[n]];
    }
  }

  lemma AfterOneMore(limit: nat, idle: seq<Connection>, serial: Word, steps: seq<PoolStep>, i: nat)
    requires i < |steps|
    ensures AfterSteps(limit, idle, steps[..i + 1]) == AfterStep(limit, AfterSteps(limit, idle, steps[..i]), steps[i])
    ensures SerialAfter(serial, steps[..i + 1])
         == if steps[i].Serial? then (SerialAfter(serial, steps[..i]) + 1) % 0x1_0000 else SerialAfter(serial, steps[..i])
  {
    assert steps[..i + 1][..i] == steps[..i];
  }

  function Open(connections: seq<Connection>): seq<Connection> {
    if connections == [] then []
    else
      var last := connections[|connections| - 1];
      Open(connections[..|connections| - 1]) + if last.closed then [] else [last]
  }

  lemma OpenStep(connections: seq<Connection>, n: nat)
    requires n < |connections|
    ensures Open(connections[..n + 1]) == Open(connections[..n]) + if connections[n].closed then [] else [connections[n]]
  {
    assert connections[..n + 1][..n] == connections[..n];
  }

  lemma {:induction false} OpenMembers(connections: seq<Connection>)
    ensures |Open(connections)| <= |connections|
    ensures forall c :: c in Open(connections) <==> c in connections && !c.closed
  {
    if connections != [] {
      OpenMembers(connections[..|connections| - 1]);
    }
  }

  class ConnectionPool {
    const maxConnections: nat
    var idle: seq<Connection>
    var nextSerial: Word

    ghost predicate Valid()
      reads this
    {
      && |idle| <= maxConnections
      && forall connection :: connection in idle ==> AtBoundary(connection.consumed)
    }

    constructor (maxConnections: nat)
      ensures Valid() && this.maxConnections == maxConnections && idle == [] && nextSerial == 1
    {
      this.maxConnections := maxConnections;
      idle := [];
      nextSerial := 1;
    }

    method RotateSerial() returns (serial: Word)
      modifies `nextSerial
      ensures serial == old(nextSerial) && nextSerial == (serial + 1) % 0x1_0000
    {
      serial := nextSerial;
      nextSerial := (nextSerial + 1) % 0x1_0000;
    }

    method Store(connection: Connection)
      requires Valid() && AtBoundary(connection.consumed)
      modifies `idle
      ensures Valid()
      ensures idle == if |old(idle)| < maxConnections then old(idle) + [connection] else old(idle)
    {
      if |idle| < maxConnections {
        idle := idle + [connection];
      }
    }

    /** Serves one flow on the first open pooled connection, or on a new one, and pools that
        connection again only at a packet boundary. `skipped` is how many closed ones came before, and
        `others` what other flows do to the pool during the session. */
    method Serve(mtu: Word, now: nat, turns: seq<Turn>, closeSent: bool, others: seq<PoolStep>)
      returns (serial: Word, pooled: bool, session: Session, ghost trace: seq<Session>, ghost skipped: nat)
      requires Valid()
      requires forall turn, arrival :: turn in turns && arrival in turn.arrivals ==> !arrival.Cancelled?
      requires forall step :: step in others && step.Put? ==> AtBoundary(step.connection.consumed)
      modifies this
      ensures Valid()
      ensures serial == old(nextSerial) && nextSerial == SerialAfter((serial + 1) % 0x1_0000, others)
      ensures Trace(mtu, serial, turns, trace) && session == trace[|trace| - 1] && InOrder(mtu, serial, session)
      ensures pooled <==> (session.ending.LocalEnded? || session.ending.LocalRefused?) && session.rest == [] && closeSent
      ensures skipped <= |old(idle)| && (forall k :: 0 <= k < skipped ==> old(idle)[k].closed)
      ensures skipped < |old(idle)| ==> !old(idle)[skipped].closed
      ensures
        var earlier := if skipped < |old(idle)| then old(idle)[skipped].consumed else [];
        var left := if skipped < |old(idle)| then old(idle)[skipped + 1..] else [];
        var rest := AfterSteps(maxConnections, left, others);
        idle == rest + if pooled && |rest| < maxConnections then [Connection(serial, now, false, earlier + session.consumed)] else []
    {
      hide AtBoundary, InOrder, Trace, AfterSteps, SerialAfter;
      var found;
      found, skipped := PopOpen();
      var earlier := if found.Some? then found.value.consumed else [];
      EmptyIsBoundary();
      serial := RotateSerial();
      Meanwhile(others);
      pooled, session, trace := GatewaySession(serial, mtu, turns, closeSent);
      if pooled {
        BoundaryAppend(earlier, session.consumed);
        Store(Connection(serial, now, false, earlier + session.consumed));
      }
    }

    /** The first open connection; closed ones before it are dropped. */
    method PopOpen() returns (found: Option<Connection>, ghost skipped: nat)
      requires Valid()
      modifies `idle
      ensures Valid()
      ensures skipped <= |old(idle)| && (forall k :: 0 <= k < skipped ==> old(idle)[k].closed)
      ensures skipped < |old(idle)| ==> found == Some(old(idle)[skipped]) && idle == old(idle)[skipped + 1..]
      ensures skipped == |old(idle)| ==> found.None? && idle == []
      ensures found.Some? ==> !found.value.closed && AtBoundary(found.value.consumed)
    {
      hide AtBoundary;
      ghost var before := idle;
      skipped := 0;
      while idle != []
        invariant skipped <= |before| && idle == before[skipped..]
        invariant forall k :: 0 <= k < skipped ==> before[k].closed
        invariant Valid()
        decreases |idle|
      {
        var front := idle[0];
        idle := idle[1..];
        if !front.closed {
          return Some(front), skipped;
        }
        skipped := skipped + 1;
      }
      found := None;
    }

    /** Empties the queue; closed connections are dropped. */
    method TakeOpen() returns (streams: seq<Connection>)
      requires Valid()
      modifies `idle
      ensures Valid() && idle == [] && streams == Open(old(idle))
    {
      hide AtBoundary, Open;
      streams := [];
      var n := 0;
      ghost var before := idle;
      assert before[..0] == [];
      NoneOpen();
      while idle != []
        invariant n <= |before| && idle == before[n..]
        invariant streams == Open(before[..n])
        decreases |idle|
      {
        OpenStep(before, n);
        if !idle[0].closed {
          streams := streams + [idle[0]];
        }
        idle := idle[1..];
        n := n + 1;
      }
      assert before[..n] == before;
    }

    /** One connection of a heartbeat round: offered to the pool again if it was active, or if the
        server answers. */
    method Refresh(mtu: Word, now: nat, keepalive: nat, stream: Connection, reply: Option<Bytes>)
      requires Valid() && AtBoundary(stream.consumed)
      modifies `idle
      ensures Valid()
      ensures idle == old(idle) + if |old(idle)| < maxConnections then Kept(mtu, now, keepalive, stream, reply) else []
    {
      hide Drain, AnswerEnd;
      if now < stream.lastActivity + keepalive {
        Store(stream);
      } else if reply.Some? {
        var end := AwaitKeepAlive(mtu, reply.value);
        if end.Some? {
          BoundaryAppend(stream.consumed, reply.value[..end.value]);
          Store(stream.(lastActivity := now, consumed := stream.consumed + reply.value[..end.value]));
        }
      }
    }

    /** Other flows take connections from the front and give theirs back. */
    method Meanwhile(steps: seq<PoolStep>)
      requires Valid() && forall step :: step in steps && step.Put? ==> AtBoundary(step.connection.consumed)
      modifies this
      ensures Valid()
      ensures idle == AfterSteps(maxConnections, old(idle), steps) && nextSerial == SerialAfter(old(nextSerial), steps)
    {
      hide AtBoundary, AfterSteps, SerialAfter;
      assert steps[..0] == [];
      NoSteps(maxConnections, idle, nextSerial);
      for i := 0 to |steps|
        invariant Valid()
        invariant idle == AfterSteps(maxConnections, old(idle), steps[..i])
        invariant nextSerial == SerialAfter(old(nextSerial), steps[..i])
      {
        AfterOneMore(maxConnections, old(idle), old(nextSerial), steps, i);
        match steps[i]
        case Pop =>
          if idle != [] {
            idle := idle[1..];
          }
        case Put(connection) => Store(connection);
        case Serial => var _ := RotateSerial();
      }
      assert steps[..|steps|] == steps;
    }

    /** One round of the heartbeat. `replies(i)` is what the server answers on the i-th connection,
        or `None` if the keep-alive packet cannot be written, and `others(i)` is what other flows do
        to the pool before that. If they do nothing, the pool holds exactly what is kept, in order;
        otherwise it may have less room, and holds nothing but that and what they have put there. */
    method Heartbeat(mtu: Word, now: nat, keepalive: nat, replies: nat -> Option<Bytes>, others: nat -> seq<PoolStep>)
      requires Valid()
      requires forall i, step :: step in others(i) && step.Put? ==> AtBoundary(step.connection.consumed)
      modifies this
      ensures Valid()
      ensures (forall i :: others(i) == []) ==> idle == KeptAll(mtu, now, keepalive, Open(old(idle)), replies)
      ensures forall c :: c in idle ==>
        c in KeptAll(mtu, now, keepalive, Open(old(idle)), replies) || PutBy(others, c)
    {
      hide AtBoundary, Open, Kept, KeptAll, PutBy, AfterSteps;
      OpenMembers(idle);
      var streams := TakeOpen();
      assert streams[..0] == [];
      NoneKept(mtu, now, keepalive, replies);
      for i := 0 to |streams|
        invariant Valid()
        invariant (forall j :: others(j) == []) ==> idle == KeptAll(mtu, now, keepalive, streams[..i], replies)
        invariant forall c :: c in idle ==> c in KeptAll(mtu, now, keepalive, streams[..i], replies) || PutBy(others, c)
      {
        assert streams[i] in streams;
        ghost var kept := idle;
        Meanwhile(others(i));
        AfterStepsFrom(maxConnections, kept, others(i));
        NoSteps(maxConnections, kept, nextSerial);
        PutNow(others, i);
        KeptAllStep(mtu, now, keepalive, streams, replies, i);
        KeptAllMeaning(mtu, now, keepalive, streams[..i], replies);
        Refresh(mtu, now, keepalive, streams[i], replies(i));
      }
      assert streams[..|streams|] == streams;
    }
  }

  lemma EmptyIsBoundary()
    ensures AtBoundary([])
  {
    DrainNothing();
  }

  lemma NoSteps(limit: nat, idle: seq<Connection>, serial: Word)
    ensures AfterSteps(limit, idle, []) == idle && SerialAfter(serial, []) == serial
  {
  }

  ghost predicate PutBy(others: nat -> seq<PoolStep>, c: Connection) {
    exists i :: Put(c) in others(i)
  }

  lemma PutNow(others: nat -> seq<PoolStep>, i: nat)
    ensures forall c :: Put(c) in others(i) ==> PutBy(others, c)
  {
  }

  lemma NoneOpen()
    ensures Open([]) == []
  {
  }

  lemma NoneKept(mtu: Word, now: nat, keepalive: nat, replies: nat -> Option<Bytes>)
    ensures KeptAll(mtu, now, keepalive, [], replies) == []
  {
  }
}
