/** DNS-over-TCP framing, section 4.2.2 of RFC 1035: a two-byte length before each message.

    Models `drain_tcp_messages` (src/dns.rs) and the filtering relay `copy_ipv4_dns_responses`
    (src/lib.rs). The DNS library is a parameter: `parse` and `serialize` are arbitrary functions.
 */
module DnsFraming {
  import opened Base
  import opened Streams
  import DnsMessages

  type Bytes = seq<Byte>

  const PREFIX: nat := 2

  // ---------------------------------------------------------------- one frame

  datatype Next = Wait | Empty | Got(packet: Bytes, rest: Bytes)

  /** The first frame of a buffer: not there yet, empty (which is an error), or complete. */
  function NextFrame(buffer: Bytes): (next: Next)
    ensures next.Got? ==> |next.rest| < |buffer|
  {
    if |buffer| < PREFIX then Wait
    else
      var end := PREFIX + BigEndian(buffer[0], buffer[1]);
      if end == PREFIX then Empty
      else if |buffer| < end then Wait
      else Got(buffer[PREFIX..end], buffer[end..])
  }

  /** A decision about the first frame is never revised by later bytes. */
  lemma NextFrameAppend(first: Bytes, second: Bytes)
    ensures NextFrame(first).Empty? ==> NextFrame(first + second).Empty?
    ensures NextFrame(first).Got? ==>
      NextFrame(first + second) == Got(NextFrame(first).packet, NextFrame(first).rest + second)
  {
    if NextFrame(first).Got? {
      var end := PREFIX + BigEndian(first[0], first[1]);
      assert (first + second)[PREFIX..end] == first[PREFIX..end];
      assert (first + second)[end..] == first[end..] + second;
    }
  }

  function Frame(packet: Bytes): Bytes
    requires |packet| < 0x1_0000
  {
    WordBytes(|packet|) + packet
  }

  lemma NextFrameOfFrame(packet: Bytes, tail: Bytes)
    requires 0 < |packet| < 0x1_0000
    ensures NextFrame(Frame(packet) + tail) == Got(packet, tail)
  {
    var buffer := Frame(packet) + tail;
    assert buffer[..PREFIX] == WordBytes(|packet|);
    assert buffer[PREFIX..PREFIX + |packet|] == packet;
    assert buffer[PREFIX + |packet|..] == tail;
  }

  // ---------------------------------------------------------------- draining a buffer

  /** The messages of the leading well-formed frames, and what stopped the draining. */
  function Drain<M>(parse: Bytes -> Option<M>, buffer: Bytes): Drained<M>
    decreases |buffer|
  {
    match NextFrame(buffer)
    case Wait => Drained([], Rest(buffer))
    case Empty => Drained([], Malformed)
    case Got(packet, rest) =>
      match parse(packet)
      case None => Drained([], Malformed)
      case Some(message) => Push([message], Drain(parse, rest))
  }

  /** Returns the messages and the remainder, or nothing and the untouched buffer. */
  method DrainTcpMessages<M>(parse: Bytes -> Option<M>, buffer: Bytes)
    returns (messages: Option<seq<M>>, rest: Bytes)
    ensures match Drain(parse, buffer)
            case Drained(drained, Rest(bytes)) => messages == Some(drained) && rest == bytes
            case Drained(_, Malformed) => messages == None && rest == buffer
  {
    var collected := [];
    var consumed := 0;
    assert buffer[0..] == buffer;
    PushNothing(Drain(parse, buffer));
    while true
      invariant 0 <= consumed <= |buffer|
      invariant Drain(parse, buffer) == Push(collected, Drain(parse, buffer[consumed..]))
      decreases |buffer| - consumed
    {
      var remaining := buffer[consumed..];
      if |remaining| < PREFIX {
        break;
      }
      var messageLength := BigEndian(remaining[0], remaining[1]);
      if messageLength == 0 {
        return None, buffer;
      }
      var frameLength := PREFIX + messageLength;
      if |remaining| < frameLength {
        break;
      }
      var message := parse(remaining[PREFIX..frameLength]);
      if message == None {
        return None, buffer;
      }
      assert remaining[frameLength..] == buffer[consumed + frameLength..];
      PushPush(collected, [message.value], Drain(parse, buffer[consumed + frameLength..]));
      collected := collected + [message.value];
      consumed := consumed + frameLength;
    }
    assert NextFrame(buffer[consumed..]) == Wait;
    assert collected + [] == collected;
    return Some(collected), buffer[consumed..];
  }

  // ---------------------------------------------------------------- fragmentation

  /** Feeding a stream in two parts drains the same messages as feeding it at once. */
  lemma {:induction false} DrainAppend<M>(parse: Bytes -> Option<M>, first: Bytes, second: Bytes)
    ensures match Drain(parse, first)
            case Drained(messages, Malformed) => Drain(parse, first + second) == Drained(messages, Malformed)
            case Drained(messages, Rest(rest)) =>
              NextFrame(rest) == Wait && Drain(parse, first + second) == Push(messages, Drain(parse, rest + second))
    decreases |first|
  {
    NextFrameAppend(first, second);
    match NextFrame(first)
    case Empty =>
    case Wait => PushNothing(Drain(parse, first + second));
    case Got(packet, rest) =>
      DrainAppend(parse, rest, second);
      var tail := Drain(parse, rest);
      if parse(packet).Some? && tail.end.Rest? {
        PushPush([parse(packet).value], tail.items, Drain(parse, tail.end.bytes + second));
      }
  }

  /** The messages and remainder collected by draining after every read. */
  function DrainChunks<M>(parse: Bytes -> Option<M>, buffer: Bytes, chunks: seq<Bytes>): Drained<M>
    decreases |chunks|
  {
    var drained := Drain(parse, buffer);
    if chunks == [] || drained.end.Malformed? then drained
    else Push(drained.items, DrainChunks(parse, drained.end.bytes + chunks[0], chunks[1..]))
  }

  /** However reads split a stream, draining it chunk by chunk gives the messages and the
      remainder of draining it once; a malformed stream stops at the same frame either way. */
  lemma {:induction false} FragmentationIndependent<M>(parse: Bytes -> Option<M>, buffer: Bytes, chunks: seq<Bytes>)
    ensures DrainChunks(parse, buffer, chunks) == Drain(parse, buffer + Flatten(chunks))
    decreases |chunks|
  {
    hide Drain;
    if chunks == [] {
      assert buffer + Flatten(chunks) == buffer;
    } else {
      DrainAppend(parse, buffer, Flatten(chunks));
      var drained := Drain(parse, buffer);
      if drained.end.Rest? {
        var rest := drained.end.bytes;
        FragmentationIndependent(parse, rest + chunks[0], chunks[1..]);
        assert rest + chunks[0] + Flatten(chunks[1..]) == rest + Flatten(chunks);
      }
    }
  }

  // ---------------------------------------------------------------- the filtering relay

  /** What the relay writes for `messages`: one frame per message until one cannot be serialized. */
  datatype Emission = Emission(bytes: Bytes, complete: bool)

  function EmitOne<M>(serialize: M -> Option<Bytes>, message: M): Emission {
    match serialize(message)
    case Some(packet) => if |packet| < 0x1_0000 then Emission(Frame(packet), true) else Emission([], false)
    case None => Emission([], false)
  }

  function Then(one: Emission, two: Emission): Emission {
    if one.complete then Emission(one.bytes + two.bytes, two.complete) else one
  }

  function Emit<M>(serialize: M -> Option<Bytes>, messages: seq<M>): Emission {
    if messages == [] then Emission([], true) else Then(EmitOne(serialize, messages[0]), Emit(serialize, messages[1..]))
  }

  lemma ThenAssociates(one: Emission, two: Emission, three: Emission)
    ensures Then(one, Then(two, three)) == Then(Then(one, two), three)
    ensures Then(Emission([], true), one) == one
    ensures Then(one, Emission([], true)) == one
  {
    assert one.bytes + (two.bytes + three.bytes) == (one.bytes + two.bytes) + three.bytes;
    assert one.bytes + [] == one.bytes == [] + one.bytes;
  }

  lemma {:induction false} EmitAppend<M>(serialize: M -> Option<Bytes>, one: seq<M>, two: seq<M>)
    ensures Emit(serialize, one + two) == Then(Emit(serialize, one), Emit(serialize, two))
  {
    hide Then;
    if one == [] {
      assert one + two == two;
      ThenAssociates(Emit(serialize, two), Emit(serialize, two), Emit(serialize, two));
    } else {
      assert (one + two)[1..] == one[1..] + two;
      EmitAppend(serialize, one[1..], two);
      ThenAssociates(EmitOne(serialize, one[0]), Emit(serialize, one[1..]), Emit(serialize, two));
    }
  }

  function Mapped<M>(filter: M -> M, messages: seq<M>): (mapped: seq<M>)
    ensures |mapped| == |messages| && forall i :: 0 <= i < |messages| ==> mapped[i] == filter(messages[i])
  {
    seq(|messages|, i requires 0 <= i < |messages| => filter(messages[i]))
  }

  lemma MappedAppend<M>(filter: M -> M, one: seq<M>, two: seq<M>)
    ensures Mapped(filter, one + two) == Mapped(filter, one) + Mapped(filter, two)
  {
  }

  /** Filters each message and writes it as a frame. */
  method WriteFrames<M>(filter: M -> M, serialize: M -> Option<Bytes>, messages: seq<M>, output: Bytes)
    returns (written: Bytes, ok: bool)
    ensures Emission(written, ok) == Then(Emission(output, true), Emit(serialize, Mapped(filter, messages)))
  {
    written := output;
    ghost var start, filtered := Emission(output, true), Mapped(filter, messages);
    assert output + [] == output;
    for i := 0 to |messages|
      invariant Then(start, Emit(serialize, filtered[..i])) == Emission(written, true)
    {
      ghost var done := Emit(serialize, filtered[..i]);
      EmitSplit(serialize, filtered, i);
      var packet := serialize(filter(messages[i]));
      if packet == None || |packet.value| >= 0x1_0000 {
        ThenAssociates(start, done, Emit(serialize, filtered[i..]));
        return written, false;
      }
      ThenAssociates(start, done, EmitOne(serialize, filtered[i]));
      assert written + Frame(packet.value) == written + WordBytes(|packet.value|) + packet.value;
      written := written + WordBytes(|packet.value|);
      written := written + packet.value;
    }
    assert filtered[..|messages|] == filtered;
    return written, true;
  }

  lemma EmitSplit<M>(serialize: M -> Option<Bytes>, messages: seq<M>, i: nat)
    requires i < |messages|
    ensures Emit(serialize, messages) == Then(Emit(serialize, messages[..i]), Emit(serialize, messages[i..]))
    ensures Emit(serialize, messages[i..]) == Then(EmitOne(serialize, messages[i]), Emit(serialize, messages[i + 1..]))
    ensures Emit(serialize, messages[..i + 1]) == Then(Emit(serialize, messages[..i]), EmitOne(serialize, messages[i]))
  {
    assert messages == messages[..i] + messages[i..];
    EmitAppend(serialize, messages[..i], messages[i..]);
    assert messages[i..][1..] == messages[i + 1..];
    assert messages[..i + 1] == messages[..i] + [messages[i]];
    EmitAppend(serialize, messages[..i], [messages[i]]);
    var one := EmitOne(serialize, messages[i]);
    ThenAssociates(one, one, one);
  }

  datatype Outcome = Copied(total: nat) | Failed

  /** The messages of as many reads as form a well-formed stream: all of them, or those before the read
      that completes a bad frame. */
  function Drawn<M>(parse: Bytes -> Option<M>, prefetched: Bytes, chunks: seq<Bytes>): seq<M>
    decreases |chunks|
  {
    var drained := Drain(parse, prefetched + Flatten(chunks));
    if drained.end.Rest? then drained.items
    else if chunks == [] then []
    else Drawn(parse, prefetched, chunks[..|chunks| - 1])
  }

  lemma ReadMore(prefetched: Bytes, chunks: seq<Bytes>, i: nat)
    requires i < |chunks|
    ensures prefetched + Flatten(chunks[..i + 1]) == prefetched + Flatten(chunks[..i]) + chunks[i]
  {
    assert chunks[..i + 1] == chunks[..i] + [chunks[i]];
    FlattenAppend(chunks[..i], [chunks[i]]);
    assert Flatten([chunks[i]]) == chunks[i] + [] == chunks[i];
  }

  /** A read that completes a bad frame ends the matter, whatever follows it. */
  lemma {:induction false} DrawnStops<M>(parse: Bytes -> Option<M>, prefetched: Bytes, chunks: seq<Bytes>, i: nat)
    requires i <= |chunks| && Drain(parse, prefetched + Flatten(chunks[..i])).end.Malformed?
    ensures Drain(parse, prefetched + Flatten(chunks)).end.Malformed?
    ensures Drawn(parse, prefetched, chunks) == if i == 0 then [] else Drawn(parse, prefetched, chunks[..i - 1])
    decreases |chunks|
  {
    hide Drain;
    if i == |chunks| {
      assert chunks[..i] == chunks;
    } else {
      var n := |chunks| - 1;
      assert chunks[..n][..i] == chunks[..i] && chunks[..n + 1] == chunks;
      if i > 0 {
        assert chunks[..n][..i - 1] == chunks[..i - 1];
      }
      DrawnStops(parse, prefetched, chunks[..n], i);
      ReadMore(prefetched, chunks, n);
      DrainAppend(parse, prefetched + Flatten(chunks[..n]), chunks[n]);
    }
  }

  /** The messages of the first reads come first. */
  lemma {:induction false} DrawnGrows<M>(parse: Bytes -> Option<M>, prefetched: Bytes, chunks: seq<Bytes>, i: nat)
    requires i <= |chunks| && Drain(parse, prefetched + Flatten(chunks[..i])).end.Rest?
    ensures Drain(parse, prefetched + Flatten(chunks[..i])).items <= Drawn(parse, prefetched, chunks)
    decreases |chunks|
  {
    hide Drain;
    if i == |chunks| {
      assert chunks[..i] == chunks;
    } else {
      var n := |chunks| - 1;
      assert chunks[..n][..i] == chunks[..i] && chunks[..n + 1] == chunks;
      DrawnGrows(parse, prefetched, chunks[..n], i);
      ReadMore(prefetched, chunks, n);
      DrainAppend(parse, prefetched + Flatten(chunks[..n]), chunks[n]);
    }
  }

  /** The relay over the bytes prefetched by the proxy handshake and the chunks read until EOF. It
      writes the filtered messages of the reads that form a well-formed stream, as whole frames and up
      to the first that cannot be encoded; for a well-formed stream, what it writes and returns depends
      on the bytes alone. */
  method CopyIpv4DnsResponses<M>(
    parse: Bytes -> Option<M>, filter: M -> M, serialize: M -> Option<Bytes>, prefetched: Bytes, chunks: seq<Bytes>)
    returns (outcome: Outcome, output: Bytes)
    ensures output == Emit(serialize, Mapped(filter, Drawn(parse, prefetched, chunks))).bytes
    ensures match Drain(parse, prefetched + Flatten(chunks))
            case Drained(_, Malformed) => outcome.Failed?
            case Drained(messages, Rest(rest)) =>
              && Drawn(parse, prefetched, chunks) == messages
              && outcome == if Emit(serialize, Mapped(filter, messages)).complete && rest == [] then Copied(|Flatten(chunks)|) else Failed
  {
    hide Drain, Emit, Mapped, Drawn;
    var pending := prefetched;
    var total := 0;
    output := [];
    ghost var relayed: seq<M> := [];
    var i := 0;
    StartDrawing(parse, prefetched, chunks);
    EmitNothing(filter, serialize);
    while true
      invariant 0 <= i <= |chunks|
      invariant total == |Flatten(chunks[..i])|
      invariant Emit(serialize, Mapped(filter, relayed)) == Emission(output, true)
      invariant Drain(parse, prefetched + Flatten(chunks[..i])) == Push(relayed, Drain(parse, pending))
      invariant relayed == if i == 0 then [] else Drawn(parse, prefetched, chunks[..i - 1])
      decreases |chunks| - i
    {
      var messages, rest := DrainTcpMessages(parse, pending);
      if messages == None {
        DrawnStops(parse, prefetched, chunks, i);
        return Failed, output;
      }
      EmitAppend(serialize, Mapped(filter, relayed), Mapped(filter, messages.value));
      MappedAppend(filter, relayed, messages.value);
      var ok;
      output, ok := WriteFrames(filter, serialize, messages.value, output);
      relayed := relayed + messages.value;
      DrawnSoFar(parse, prefetched, chunks, i, relayed);
      if !ok {
        EmissionStops(filter, serialize, relayed, Drawn(parse, prefetched, chunks));
        return Failed, output;
      }
      pending := rest;
      if i == |chunks| {
        assert chunks[..i] == chunks;
        return if pending == [] then Copied(total) else Failed, output;
      }
      ReadMore(prefetched, chunks, i);
      ReadMore([], chunks, i);
      ArrivedMore(parse, prefetched + Flatten(chunks[..i]), relayed, pending, chunks[i]);
      total := total + |chunks[i]|;
      pending := pending + chunks[i];
      i := i + 1;
    }
  }

  lemma StartDrawing<M>(parse: Bytes -> Option<M>, prefetched: Bytes, chunks: seq<Bytes>)
    ensures Flatten(chunks[..0]) == []
    ensures Drain(parse, prefetched + Flatten(chunks[..0])) == Push([], Drain(parse, prefetched))
  {
    assert prefetched + [] == prefetched;
    PushNothing(Drain(parse, prefetched));
  }

  lemma DrawnSoFar<M>(parse: Bytes -> Option<M>, prefetched: Bytes, chunks: seq<Bytes>, i: nat, relayed: seq<M>)
    requires i <= |chunks|
    ensures var drained := Drain(parse, prefetched + Flatten(chunks[..i]));
      drained.end.Rest? && drained.items == relayed ==>
        && Drawn(parse, prefetched, chunks[..i]) == relayed
        && relayed <= Drawn(parse, prefetched, chunks)
        && (i == |chunks| ==> Drawn(parse, prefetched, chunks) == relayed)
        && (Drain(parse, prefetched + Flatten(chunks)).end.Rest? ==>
              Drain(parse, prefetched + Flatten(chunks)).items == Drawn(parse, prefetched, chunks))
  {
    hide Drain;
    assert i == |chunks| ==> chunks[..i] == chunks;
    if Drain(parse, prefetched + Flatten(chunks[..i])).end.Rest? {
      DrawnGrows(parse, prefetched, chunks, i);
    }
  }

  lemma EmissionStops<M>(filter: M -> M, serialize: M -> Option<Bytes>, some: seq<M>, all: seq<M>)
    requires some <= all && !Emit(serialize, Mapped(filter, some)).complete
    ensures Emit(serialize, Mapped(filter, all)) == Emit(serialize, Mapped(filter, some))
  {
    hide Emit, Mapped;
    var more := all[|some|..];
    assert all == some + more;
    MappedAppend(filter, some, more);
    EmitAppend(serialize, Mapped(filter, some), Mapped(filter, more));
  }

  lemma ArrivedMore<M>(parse: Bytes -> Option<M>, read: Bytes, relayed: seq<M>, rest: Bytes, chunk: Bytes)
    requires Drain(parse, read) == Drained(relayed, Rest(rest))
    ensures Drain(parse, read + chunk) == Push(relayed, Drain(parse, rest + chunk))
  {
    hide Drain;
    DrainAppend(parse, read, chunk);
  }

  lemma EmitNothing<M>(filter: M -> M, serialize: M -> Option<Bytes>)
    ensures Emit(serialize, Mapped(filter, [])) == Emission([], true)
  {
  }

  /** The messages before the first that cannot be serialized. */
  function Sent<M>(serialize: M -> Option<Bytes>, messages: seq<M>): (sent: seq<M>)
    ensures sent <= messages && (Emit(serialize, messages).complete ==> sent == messages)
  {
    if messages == [] || !EmitOne(serialize, messages[0]).complete then []
    else
      assert messages == [messages[0]] + messages[1..];
      [messages[0]] + Sent(serialize, messages[1..])
  }

  /** The library decodes what it encodes. */
  ghost predicate Decodes<M>(parse: Bytes -> Option<M>, serialize: M -> Option<Bytes>, messages: seq<M>) {
    forall m :: m in messages && serialize(m).Some? ==> serialize(m).value != [] && parse(serialize(m).value) == Some(m)
  }

  /** A receiver that drains what is written for messages sees exactly those messages. */
  lemma {:induction false} WrittenFramesDecode<M>(parse: Bytes -> Option<M>, serialize: M -> Option<Bytes>, messages: seq<M>)
    requires Decodes(parse, serialize, messages)
    ensures Drain(parse, Emit(serialize, messages).bytes) == Drained(Sent(serialize, messages), Rest([]))
  {
    if messages != [] && EmitOne(serialize, messages[0]).complete {
      var packet := serialize(messages[0]).value;
      assert messages[0] in messages;
      NextFrameOfFrame(packet, Emit(serialize, messages[1..]).bytes);
      WrittenFramesDecode(parse, serialize, messages[1..]);
    }
  }

  /** The client of the relay sees the messages of the server's stream, filtered: all of them, if the
      stream is well formed and the filtered messages can be serialized. */
  lemma RelayedFramesDecode<M>(
    parse: Bytes -> Option<M>, filter: M -> M, serialize: M -> Option<Bytes>, messages: seq<M>)
    requires Decodes(parse, serialize, Mapped(filter, messages))
    ensures var seen := Drain(parse, Emit(serialize, Mapped(filter, messages)).bytes);
      && seen.end == Rest([])
      && (exists k :: 0 <= k <= |messages| && seen.items == Mapped(filter, messages[..k]))
      && (Emit(serialize, Mapped(filter, messages)).complete ==> seen.items == Mapped(filter, messages))
  {
    hide Drain, Emit;
    var mapped := Mapped(filter, messages);
    WrittenFramesDecode(parse, serialize, mapped);
    var k := |Sent(serialize, mapped)|;
    assert Sent(serialize, mapped) == mapped[..k];
    assert mapped[..k] == Mapped(filter, messages[..k]);
  }

  /** No IPv6 address reaches the client, and whatever else a message holds does. */
  lemma NoIpv6ReachesClient(
    parse: Bytes -> Option<DnsMessages.Message>, serialize: DnsMessages.Message -> Option<Bytes>, messages: seq<DnsMessages.Message>)
    requires Decodes(parse, serialize, Mapped(DnsMessages.RemoveIpv6Entries, messages))
    ensures var seen := Drain(parse, Emit(serialize, Mapped(DnsMessages.RemoveIpv6Entries, messages)).bytes).items;
      && |seen| <= |messages|
      && forall i :: 0 <= i < |seen| ==> DnsMessages.WithoutAAAA(messages[i], seen[i])
  {
    hide Drain, Emit;
    RelayedFramesDecode(parse, DnsMessages.RemoveIpv6Entries, serialize, messages);
    var seen := Drain(parse, Emit(serialize, Mapped(DnsMessages.RemoveIpv6Entries, messages)).bytes).items;
    forall i | 0 <= i < |seen|
      ensures DnsMessages.WithoutAAAA(messages[i], seen[i])
    {
      DnsMessages.RemovesOnlyIpv6(messages[i]);
    }
  }
}
