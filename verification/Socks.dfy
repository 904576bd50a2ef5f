/** The SOCKS client handshake and the relay that follows it (src/socks.rs; sections 3, 4 and 6 of
    RFC 1928, section 2 of RFC 1929).
 */
module Socks {
  import opened Base
  import opened GatewayCodec

  datatype Version = V4Socks | V5Socks

  datatype Command = Connect | UdpAssociate

  /** What a session is set up with. The three requests are given as the bytes to send; `numeric`
      tells whether a name is the text of an address. */
  datatype Config = Config(
    version: Version,
    credentials: bool,
    command: Command,
    hello: Bytes,
    auth: Bytes,
    request: Bytes,
    numeric: Bytes -> bool)

  datatype Stage = ServerHello | ReceiveAuthResponse | ReceiveResponse | Established

  const NO_AUTH: Byte := 0
  const USER_PASS: Byte := 2

  // ---------------------------------------------------------------- replies

  /** The first reply in a buffer: not complete yet, unacceptable, or accepted with the stage it
      leads to and its length. */
  datatype Reply = More | Refused | Accepted(next: Stage, length: nat)

  /** Section 3 of RFC 1928, or the eight bytes of a SOCKS4 reply. */
  function HelloReply(config: Config, buffer: Bytes): Reply {
    match config.version
    case V4Socks =>
      if |buffer| < 8 then More
      else if buffer[1] != 0x5a then Refused
      else Accepted(Established, 8)
    case V5Socks =>
      if |buffer| < 1 then More
      else if buffer[0] != 5 then Refused
      else if |buffer| < 2 then More
      else
        var chosen := buffer[1];
        if (chosen != NO_AUTH && !config.credentials) || (chosen != NO_AUTH && chosen != USER_PASS && config.credentials) then Refused
        else Accepted(if chosen == USER_PASS then ReceiveAuthResponse else ReceiveResponse, 2)
  }

  /** Section 2 of RFC 1929. */
  function AuthReply(buffer: Bytes): Reply {
    if |buffer| < 1 then More
    else if buffer[0] != 1 then Refused
    else if |buffer| < 2 then More
    else if buffer[1] != 0 then Refused
    else Accepted(ReceiveResponse, 2)
  }

  /** Section 6 of RFC 1928. */
  function ConnectReply(config: Config, buffer: Bytes): Reply {
    if |buffer| < 1 then More
    else if buffer[0] != 5 then Refused
    else if |buffer| < 3 then More
    else if buffer[1] > 8 then Refused
    else
      match ParseAddress(buffer[3..])
      case Short => More
      case Unsupported => Refused
      case Parsed(address, length) =>
        if buffer[1] != 0 || (config.command.UdpAssociate? && address.Domain? && !config.numeric(address.name)) then Refused
        else Accepted(Established, 3 + length)
  }

  function NextReply(config: Config, stage: Stage, buffer: Bytes): (reply: Reply)
    ensures reply.Accepted? ==> 0 < reply.length <= |buffer| && Rank(reply.next) < Rank(stage)
  {
    match stage
    case ServerHello => HelloReply(config, buffer)
    case ReceiveAuthResponse => AuthReply(buffer)
    case ReceiveResponse => ConnectReply(config, buffer)
    case Established => More
  }

  function Rank(stage: Stage): nat {
    match stage
    case ServerHello => 3
    case ReceiveAuthResponse => 2
    case ReceiveResponse => 1
    case Established => 0
  }

  /** A complete reply is decided by its own bytes. */
  lemma ReplyStable(config: Config, stage: Stage, buffer: Bytes, more: Bytes)
    ensures !NextReply(config, stage, buffer).More? ==> NextReply(config, stage, buffer + more) == NextReply(config, stage, buffer)
  {
    if stage.ReceiveResponse? && |buffer| >= 3 {
      var all := buffer + more;
      assert all[3..] == buffer[3..] + more;
      assert all[3..][..|buffer| - 3] == buffer[3..];
      ParseAddressLocal(all[3..], |buffer| - 3);
      UnsupportedStable(buffer[3..], more);
    }
  }

  lemma UnsupportedStable(bytes: Bytes, more: Bytes)
    ensures ParseAddress(bytes).Unsupported? ==> ParseAddress(bytes + more).Unsupported?
  {
  }

  // ---------------------------------------------------------------- the handshake as a whole

  datatype Progress = Failed | At(stage: Stage, rest: Bytes, requests: Bytes)

  /** What the client sends on entering a stage. */
  function RequestFor(config: Config, stage: Stage): Bytes {
    match stage
    case ServerHello => config.hello
    case ReceiveAuthResponse => config.auth
    case ReceiveResponse => config.request
    case Established => []
  }

  lemma RequestMeans(config: Config, stage: Stage, next: Stage)
    requires Rank(next) < Rank(stage)
    ensures !next.ServerHello?
    ensures next.ReceiveAuthResponse? ==> RequestFor(config, next) == config.auth
    ensures next.ReceiveResponse? ==> RequestFor(config, next) == config.request
    ensures next.Established? ==> RequestFor(config, next) == []
  {
  }

  function Prepend(requests: Bytes, progress: Progress): Progress {
    if progress.Failed? then Failed else progress.(requests := requests + progress.requests)
  }

  /** Reads all the complete replies of a server stream: the meaning of the stream. */
  function Handshake(config: Config, stage: Stage, stream: Bytes): Progress
    decreases Rank(stage)
  {
    match NextReply(config, stage, stream)
    case More => At(stage, stream, [])
    case Refused => Failed
    case Accepted(next, length) => Prepend(RequestFor(config, next), Handshake(config, next, stream[length..]))
  }

  lemma PrependTwice(one: Bytes, two: Bytes, progress: Progress)
    ensures Prepend(one, Prepend(two, progress)) == Prepend(one + two, progress)
  {
    if progress.At? {
      assert one + (two + progress.requests) == one + two + progress.requests;
    }
  }

  lemma PrependNothing(progress: Progress)
    ensures Prepend([], progress) == progress
  {
    if progress.At? {
      assert [] + progress.requests == progress.requests;
    }
  }

  /** Reading a stream in two parts. */
  lemma {:induction false} HandshakeAppend(config: Config, stage: Stage, first: Bytes, second: Bytes)
    ensures match Handshake(config, stage, first)
            case Failed => Handshake(config, stage, first + second) == Failed
            case At(reached, rest, requests) =>
              Handshake(config, stage, first + second) == Prepend(requests, Handshake(config, reached, rest + second))
    decreases Rank(stage)
  {
    hide NextReply;
    ReplyStable(config, stage, first, second);
    match NextReply(config, stage, first)
    case More => PrependNothing(Handshake(config, stage, first + second));
    case Refused =>
    case Accepted(next, length) =>
      assert (first + second)[length..] == first[length..] + second;
      HandshakeAppend(config, next, first[length..], second);
      var progress := Handshake(config, next, first[length..]);
      if progress.At? {
        PrependTwice(RequestFor(config, next), progress.requests, Handshake(config, progress.stage, progress.rest + second));
      }
  }

  // ---------------------------------------------------------------- the handshake byte by byte

  /** The second byte of a version 5 server's answer to the hello: the method it has chosen. Method 2
      is answered by user name and password, and confirmed in two bytes. */
  function ReplyAt(stream: Bytes): nat
    requires |stream| >= 2
  {
    if stream[1] == 2 then 4 else 2
  }

  /** The bytes of a version 5 server that chooses an acceptable method and confirms the credentials. */
  predicate MethodAgreed(config: Config, stream: Bytes) {
    && |stream| >= 2 && stream[0] == 5
    && (stream[1] == 0 || (stream[1] == 2 && config.credentials))
    && (stream[1] == 2 ==> |stream| >= 4 && stream[2] == 1 && stream[3] == 0)
  }

  /** A reply that grants the request, and names an address where one is needed. */
  predicate RequestGranted(config: Config, reply: Bytes) {
    && |reply| >= 3 && reply[0] == 5 && reply[1] == 0 && ParseAddress(reply[3..]).Parsed?
    && (config.command.UdpAssociate? && ParseAddress(reply[3..]).address.Domain? ==>
          config.numeric(ParseAddress(reply[3..]).address.name))
  }

  predicate RequestDenied(config: Config, reply: Bytes) {
    || (|reply| >= 1 && reply[0] != 5)
    || (|reply| >= 3 && (reply[1] > 8 || ParseAddress(reply[3..]).Unsupported?))
    || (|reply| >= 3 && ParseAddress(reply[3..]).Parsed? && !RequestGranted(config, reply))
  }

  predicate Granted(config: Config, stream: Bytes) {
    match config.version
    case V4Socks => |stream| >= 8 && stream[1] == 0x5a
    case V5Socks => MethodAgreed(config, stream) && RequestGranted(config, stream[ReplyAt(stream)..])
  }

  predicate Denied(config: Config, stream: Bytes) {
    match config.version
    case V4Socks => |stream| >= 8 && stream[1] != 0x5a
    case V5Socks =>
      || (|stream| >= 1 && stream[0] != 5)
      || (|stream| >= 2 && stream[1] != 0 && !(stream[1] == 2 && config.credentials))
      || (|stream| >= 3 && stream[1] == 2 && stream[2] != 1)
      || (|stream| >= 4 && stream[1] == 2 && stream[3] != 0)
      || (MethodAgreed(config, stream) && RequestDenied(config, stream[ReplyAt(stream)..]))
  }

  /** What a client has to send by the time a stage is reached. */
  function Owed(config: Config, stage: Stage, stream: Bytes): Bytes
    requires config.version.V5Socks? && !stage.ServerHello? ==> |stream| >= 2
  {
    if config.version.V4Socks? || stage.ServerHello? then []
    else (if stream[1] == 2 then config.auth else []) + (if stage.ReceiveAuthResponse? then [] else config.request)
  }

  lemma GrantReply(config: Config, reply: Bytes)
    ensures ConnectReply(config, reply).Refused? <==> RequestDenied(config, reply)
    ensures RequestGranted(config, reply) ==>
      ConnectReply(config, reply) == Accepted(Established, 3 + ParseAddress(reply[3..]).length)
    ensures ConnectReply(config, reply).Accepted? ==> RequestGranted(config, reply)
  {
    hide ParseAddress;
  }

  /** From the last reply on. */
  lemma LastReply(config: Config, reply: Bytes)
    ensures Handshake(config, ReceiveResponse, reply).Failed? <==> RequestDenied(config, reply)
    ensures Handshake(config, ReceiveResponse, reply).At? ==>
      var progress := Handshake(config, ReceiveResponse, reply);
      && (progress.stage.Established? <==> RequestGranted(config, reply)) && progress.requests == []
      && (progress.stage.Established? ==> progress.rest == reply[3 + ParseAddress(reply[3..]).length..])
      && (!progress.stage.Established? ==> progress.stage.ReceiveResponse? && progress.rest == reply)
  {
    hide ConnectReply, RequestGranted, RequestDenied, Handshake;
    GrantReply(config, reply);
    HandshakeStep(config, ReceiveResponse, reply);
    var next := ConnectReply(config, reply);
    if next.Accepted? {
      EstablishedReadsNothing(config, reply[next.length..]);
    }
  }

  lemma HandshakeStep(config: Config, stage: Stage, stream: Bytes)
    ensures var reply := NextReply(config, stage, stream);
      Handshake(config, stage, stream) ==
        if reply.More? then At(stage, stream, [])
        else if reply.Refused? then Failed
        else Prepend(RequestFor(config, reply.next), Handshake(config, reply.next, stream[reply.length..]))
  {
    hide NextReply;
  }

  /** From the answer to the credentials on. */
  lemma AuthThenReply(config: Config, stream: Bytes)
    ensures Handshake(config, ReceiveAuthResponse, stream).Failed? <==>
      || (|stream| >= 1 && stream[0] != 1) || (|stream| >= 2 && stream[1] != 0)
      || (|stream| >= 2 && stream[0] == 1 && stream[1] == 0 && RequestDenied(config, stream[2..]))
    ensures Handshake(config, ReceiveAuthResponse, stream).At? ==>
      var progress := Handshake(config, ReceiveAuthResponse, stream);
      && (progress.stage.Established? <==>
            |stream| >= 2 && stream[0] == 1 && stream[1] == 0 && RequestGranted(config, stream[2..]))
      && (progress.stage.ReceiveAuthResponse? ==> progress.requests == [] && progress.rest == stream)
      && (!progress.stage.ReceiveAuthResponse? ==> progress.requests == config.request && |stream| >= 2)
      && (progress.stage.ReceiveResponse? ==> progress.rest == stream[2..])
      && (progress.stage.Established? ==> progress.rest == stream[2..][3 + ParseAddress(stream[2..][3..]).length..])
      && !progress.stage.ServerHello?
  {
    hide ConnectReply, RequestGranted, RequestDenied, Handshake;
    HandshakeStep(config, ReceiveAuthResponse, stream);
    if AuthReply(stream).Accepted? {
      LastReply(config, stream[2..]);
      assert config.request + [] == config.request;
    }
  }

  lemma HelloThenReplies(config: Config, stream: Bytes)
    requires config.version.V5Socks?
    ensures Handshake(config, ServerHello, stream).Failed? <==> Denied(config, stream)
    ensures Handshake(config, ServerHello, stream).At? ==>
      var progress := Handshake(config, ServerHello, stream);
      && (progress.stage.Established? <==> Granted(config, stream))
      && (!progress.stage.ServerHello? ==> |stream| >= 2)
      && progress.requests == Owed(config, progress.stage, stream)
  {
    hide ConnectReply, RequestGranted, RequestDenied, Handshake;
    HandshakeStep(config, ServerHello, stream);
    if HelloReply(config, stream).Accepted? {
      var rest := stream[2..];
      if stream[1] == 2 {
        AuthThenReply(config, rest);
        assert |rest| >= 2 ==> rest[2..] == stream[4..];
        assert config.auth + [] == config.auth;
      } else {
        LastReply(config, rest);
        assert config.request + [] == config.request && [] + config.request == config.request;
      }
    }
  }

  /** The whole handshake in the bytes of the server and the requests of the configuration: when it is
      refused, when it is done, and what has been sent by then. */
  lemma HandshakeByBytes(config: Config, stream: Bytes)
    ensures Handshake(config, ServerHello, stream).Failed? <==> Denied(config, stream)
    ensures Handshake(config, ServerHello, stream).At? ==>
      var progress := Handshake(config, ServerHello, stream);
      && (progress.stage.Established? <==> Granted(config, stream))
      && (config.version.V5Socks? && !progress.stage.ServerHello? ==> |stream| >= 2)
      && progress.requests == Owed(config, progress.stage, stream)
  {
    if config.version.V4Socks? {
      if HelloReply(config, stream).Accepted? {
        EstablishedReadsNothing(config, stream[8..]);
      }
    } else {
      HelloThenReplies(config, stream);
    }
  }

  // ---------------------------------------------------------------- the handler

  class SocksProxy {
    const config: Config
    var stage: Stage
    var clientInbuf: Bytes
    var serverInbuf: Bytes
    var clientOutbuf: Bytes
    var serverOutbuf: Bytes

    /** Everything pushed in, everything taken out, and the replies of the handshake. */
    ghost var fromServer: Bytes
    ghost var fromClient: Bytes
    ghost var takenByClient: Bytes
    ghost var takenByServer: Bytes
    ghost var replies: Bytes
    ghost var requests: Bytes
    ghost var forwarded: Bytes

    /** All that has been offered to the client, and to the server. */
    ghost function ToClient(): Bytes
      reads this
    {
      takenByClient + clientOutbuf
    }

    ghost function ToServer(): Bytes
      reads this
    {
      takenByServer + serverOutbuf
    }

    /** No byte is lost, doubled or moved: the server's bytes are the replies, what is offered to the
        client, and what is not read yet; the bytes for the server are the requests and the
        client's bytes. */
    ghost predicate Valid()
      reads this
    {
      && Handshake(config, ServerHello, replies) == At(stage, [], requests)
      && fromServer == replies + ToClient() + serverInbuf
      && ToServer() == config.hello + requests + forwarded
      && fromClient == forwarded + clientInbuf
      && (!stage.Established? ==> forwarded == [] && ToClient() == [])
      && (stage.Established? ==> serverInbuf == [] && clientInbuf == [])
    }

    constructor (config: Config)
      ensures Valid() && this.config == config && stage == ServerHello && serverInbuf == []
      ensures fromServer == [] && fromClient == []
    {
      this.config := config;
      stage := ServerHello;
      clientInbuf, serverInbuf, clientOutbuf, serverOutbuf := [], [], [], config.hello;
      fromServer, fromClient, takenByClient, takenByServer := [], [], [], [];
      replies, requests, forwarded := [], [], [];
      new;
      NothingRead(config);
    }

    /** `relay_traffic`. */
    method Relay()
      requires stage.Established?
      requires Handshake(config, ServerHello, replies) == At(Established, [], requests)
      requires fromServer == replies + ToClient() + serverInbuf
      requires ToServer() == config.hello + requests + forwarded && fromClient == forwarded + clientInbuf
      modifies `clientInbuf, `serverInbuf, `clientOutbuf, `serverOutbuf, `forwarded
      ensures Valid()
      ensures clientOutbuf == old(clientOutbuf) + old(serverInbuf) && serverOutbuf == old(serverOutbuf) + old(clientInbuf)
      ensures clientInbuf == [] && serverInbuf == []
    {
      hide Handshake;
      assert takenByClient + (clientOutbuf + serverInbuf) == ToClient() + serverInbuf;
      assert replies + (ToClient() + serverInbuf) + [] == replies + ToClient() + serverInbuf;
      assert takenByServer + (serverOutbuf + clientInbuf) == ToServer() + clientInbuf;
      assert config.hello + requests + (forwarded + clientInbuf) == config.hello + requests + forwarded + clientInbuf;
      assert forwarded + clientInbuf + [] == forwarded + clientInbuf;
      clientOutbuf := clientOutbuf + serverInbuf;
      serverOutbuf := serverOutbuf + clientInbuf;
      forwarded := forwarded + clientInbuf;
      serverInbuf := [];
      clientInbuf := [];
    }

    /** `state_change`: examines one reply at most. An accepted reply is taken off the buffer and
        answered with the next request; the last one starts the relay. */
    method StateChange() returns (ok: bool)
      requires Handshake(config, ServerHello, replies) == At(stage, [], requests)
      requires fromServer == replies + ToClient() + serverInbuf
      requires ToServer() == config.hello + requests + forwarded && fromClient == forwarded + clientInbuf
      requires !stage.Established? ==> forwarded == [] && ToClient() == []
      modifies `stage, `clientInbuf, `serverInbuf, `clientOutbuf, `serverOutbuf, `replies, `requests, `forwarded
      ensures ok ==> Valid()
      ensures ok <==> !NextReply(config, old(stage), old(serverInbuf)).Refused?
      ensures ok ==> (stage == old(stage) <==> !NextReply(config, old(stage), old(serverInbuf)).Accepted?)
      ensures ok && NextReply(config, old(stage), old(serverInbuf)).Accepted? ==>
        && stage == NextReply(config, old(stage), old(serverInbuf)).next
        && (!stage.Established? ==> serverInbuf == old(serverInbuf)[NextReply(config, old(stage), old(serverInbuf)).length..])
      ensures ok && old(stage) == stage && !stage.Established? ==> serverInbuf == old(serverInbuf)
      ensures ok && stage != old(stage) ==>
        serverOutbuf == old(serverOutbuf) +
          match stage
          case ReceiveAuthResponse => config.auth
          case ReceiveResponse => config.request
          case _ => old(clientInbuf)
      ensures ok && stage == old(stage) ==>
        serverOutbuf == old(serverOutbuf) + if stage.Established? then old(clientInbuf) else []
    {
      hide Handshake, NextReply, RequestFor;
      EstablishedReadsNothing(config, serverInbuf);
      if stage.Established? {
        Relay();
        return true;
      }
      var reply := NextReply(config, stage, serverInbuf);
      if reply.Refused? {
        return false;
      }
      if reply.More? {
        return true;
      }
      Accept(reply);
      return true;
    }

    /** Takes an accepted reply off the buffer and goes on: to the credentials, to the request, or to the
        relay. */
    method Accept(reply: Reply)
      requires Handshake(config, ServerHello, replies) == At(stage, [], requests) && !stage.Established?
      requires fromServer == replies + ToClient() + serverInbuf
      requires ToServer() == config.hello + requests + forwarded && fromClient == forwarded + clientInbuf
      requires forwarded == [] && ToClient() == []
      requires reply.Accepted? && NextReply(config, stage, serverInbuf) == reply
      modifies `stage, `clientInbuf, `serverInbuf, `clientOutbuf, `serverOutbuf, `replies, `requests, `forwarded
      ensures Valid() && stage == reply.next
      ensures !stage.Established? ==> serverInbuf == old(serverInbuf)[reply.length..]
      ensures serverOutbuf == old(serverOutbuf) +
        match stage
        case ReceiveAuthResponse => config.auth
        case ReceiveResponse => config.request
        case _ => old(clientInbuf)
    {
      hide Handshake, NextReply, RequestFor;
      AcceptKeeps(config, replies, stage, requests, serverInbuf);
      RequestMeans(config, stage, reply.next);
      ghost var taken := serverInbuf[..reply.length];
      assert serverInbuf == taken + serverInbuf[reply.length..];
      assert replies + taken + [] + serverInbuf[reply.length..] == replies + [] + serverInbuf;
      ghost var answer := RequestFor(config, reply.next);
      assert takenByServer + (serverOutbuf + answer) == ToServer() + answer;
      assert config.hello + (requests + answer) + [] == config.hello + requests + [] + answer;
      replies := replies + taken;
      requests := requests + RequestFor(config, reply.next);
      serverInbuf := serverInbuf[reply.length..];
      serverOutbuf := serverOutbuf + RequestFor(config, reply.next);
      stage := reply.next;
      if stage.Established? {
        assert old(serverOutbuf) + [] == old(serverOutbuf);
        Relay();
      }
    }

    method PushServer(chunk: Bytes) returns (ok: bool)
      requires Valid()
      modifies this
      ensures fromServer == old(fromServer) + chunk && fromClient == old(fromClient)
      ensures ok ==> Valid()
      ensures ok <==> !NextReply(config, old(stage), old(serverInbuf) + chunk).Refused?
      ensures ok ==>
        var reply := NextReply(config, old(stage), old(serverInbuf) + chunk);
        && stage == (if reply.Accepted? then reply.next else old(stage))
        && (!stage.Established? ==>
              serverInbuf == if reply.Accepted? then (old(serverInbuf) + chunk)[reply.length..] else old(serverInbuf) + chunk)
      ensures ok && old(CaughtUp()) && Causal(config, old(stage), old(serverInbuf) + chunk) ==> CaughtUp()
      ensures !ok ==> Handshake(config, ServerHello, fromServer).Failed?
    {
      hide Handshake, NextReply;
      serverInbuf := serverInbuf + chunk;
      fromServer := fromServer + chunk;
      assert replies + ToClient() + serverInbuf == fromServer;
      ghost var buffer := serverInbuf;
      NothingNext(config, NextReply(config, stage, buffer));
      RefusedFails(config, replies, stage, requests, buffer, fromServer);
      ok := StateChange();
    }

    method PushClient(chunk: Bytes) returns (ok: bool)
      requires Valid()
      modifies this
      ensures fromClient == old(fromClient) + chunk && fromServer == old(fromServer)
      ensures ok ==> Valid()
      ensures old(CaughtUp()) ==> ok && CaughtUp() && stage == old(stage)
    {
      hide Handshake, NextReply;
      clientInbuf := clientInbuf + chunk;
      fromClient := fromClient + chunk;
      assert forwarded + clientInbuf == fromClient;
      EstablishedReadsNothing(config, serverInbuf);
      ok := StateChange();
    }

    /** `consume_data`. */
    method TakeForClient(size: nat)
      requires Valid() && size <= |clientOutbuf|
      modifies `clientOutbuf, `takenByClient
      ensures Valid() && ToClient() == old(ToClient())
    {
      hide Handshake;
      takenByClient := takenByClient + clientOutbuf[..size];
      clientOutbuf := clientOutbuf[size..];
    }

    method TakeForServer(size: nat)
      requires Valid() && size <= |serverOutbuf|
      modifies `serverOutbuf, `takenByServer
      ensures Valid() && ToServer() == old(ToServer())
    {
      hide Handshake;
      takenByServer := takenByServer + serverOutbuf[..size];
      serverOutbuf := serverOutbuf[size..];
    }

    /** No complete reply is waiting in the buffer. */
    ghost predicate CaughtUp()
      reads this
    {
      NextReply(config, stage, serverInbuf).More?
    }

    /** Once established, the client has been offered exactly the server's bytes behind the replies
        of the handshake, and the server exactly the requests followed by the client's bytes. */
    lemma Conserved()
      requires Valid() && stage.Established?
      ensures Handshake(config, ServerHello, fromServer) == At(Established, ToClient(), requests)
      ensures fromServer == replies + ToClient()
      ensures ToServer() == config.hello + requests + fromClient
    {
      hide Handshake, NextReply;
      assert fromServer == replies + ToClient();
      HandshakeAppend(config, ServerHello, replies, ToClient());
      EstablishedReadsNothing(config, ToClient());
      assert [] + ToClient() == ToClient() && requests + [] == requests;
    }

    /** What the server has been offered, in the configuration's own requests: the hello; then, from a
        version 5 server's choice on, the credentials if it chose them, and the request; then the
        client's bytes. */
    lemma OffersInOrder()
      requires Valid()
      ensures config.version.V4Socks? ==> ToServer() == config.hello + forwarded
      ensures config.version.V5Socks? && !stage.ServerHello? ==>
        && |fromServer| >= 2
        && ToServer() == config.hello + (if fromServer[1] == 2 then config.auth else [])
                       + (if stage.ReceiveAuthResponse? then [] else config.request) + forwarded
      ensures stage.Established? ==> forwarded == fromClient && Granted(config, replies)
    {
      hide Handshake, NextReply, Granted;
      HandshakeByBytes(config, replies);
      if config.version.V4Socks? {
        assert config.hello + [] + forwarded == config.hello + forwarded;
      } else if !stage.ServerHello? {
        var auth := if fromServer[1] == 2 then config.auth else [];
        var request := if stage.ReceiveAuthResponse? then [] else config.request;
        assert config.hello + (auth + request) + forwarded == config.hello + auth + request + forwarded;
      }
    }

    /** Exactly while no reply is waiting, the stage, the unread bytes and everything sent are those
        of reading the server's bytes at once, however they were cut into pieces. */
    lemma DependsOnBytesOnly()
      requires Valid()
      ensures CaughtUp() <==> Handshake(config, ServerHello, fromServer) == At(stage, ToClient() + serverInbuf, requests)
    {
      hide Handshake, NextReply;
      if stage.Established? {
        Conserved();
        assert ToClient() + serverInbuf == ToClient();
        EstablishedReadsNothing(config, serverInbuf);
      } else {
        assert ToClient() + serverInbuf == serverInbuf && fromServer == replies + serverInbuf;
        HandshakeAppend(config, ServerHello, replies, serverInbuf);
        assert [] + serverInbuf == serverInbuf && requests + [] == requests;
        if CaughtUp() {
          ShortStays(config, stage, serverInbuf);
        } else {
          ReplyMovesOn(config, stage, serverInbuf);
        }
      }
    }
  }

  lemma {:induction false} HandshakeRank(config: Config, stage: Stage, stream: Bytes)
    ensures var progress := Handshake(config, stage, stream); progress.At? ==> Rank(progress.stage) <= Rank(stage)
    decreases Rank(stage)
  {
    hide NextReply;
    var reply := NextReply(config, stage, stream);
    if reply.Accepted? {
      HandshakeRank(config, reply.next, stream[reply.length..]);
    }
  }

  lemma ReplyMovesOn(config: Config, stage: Stage, buffer: Bytes)
    requires !NextReply(config, stage, buffer).More?
    ensures var progress := Handshake(config, stage, buffer); progress.Failed? || progress.stage != stage
  {
    hide NextReply;
    var reply := NextReply(config, stage, buffer);
    if reply.Accepted? {
      HandshakeRank(config, reply.next, buffer[reply.length..]);
    }
  }

  lemma RefusedFails(config: Config, replies: Bytes, stage: Stage, requests: Bytes, buffer: Bytes, stream: Bytes)
    requires Handshake(config, ServerHello, replies) == At(stage, [], requests)
    ensures NextReply(config, stage, buffer).Refused? && stream == replies + buffer ==>
      Handshake(config, ServerHello, stream).Failed?
    ensures NextReply(config, stage, buffer).Refused? ==> !stage.Established?
  {
    hide Handshake, NextReply;
    EstablishedReadsNothing(config, buffer);
    if NextReply(config, stage, buffer).Refused? && stream == replies + buffer {
      HandshakeAppend(config, ServerHello, replies, buffer);
      assert [] + buffer == buffer;
      RefusedEnds(config, stage, buffer);
    }
  }

  lemma RefusedEnds(config: Config, stage: Stage, buffer: Bytes)
    requires NextReply(config, stage, buffer).Refused?
    ensures Handshake(config, stage, buffer).Failed?
  {
    hide NextReply;
  }

  /** Feeds the server's bytes in pieces. A refusal is one of the whole stream; and if the server is
      causal throughout, the outcome is that of the whole stream in every case. */
  method Feed(proxy: SocksProxy, chunks: seq<Bytes>) returns (ok: bool)
    requires proxy.Valid() && proxy.CaughtUp() && proxy.fromServer == []
    modifies proxy
    ensures !ok ==> Handshake(proxy.config, ServerHello, Flatten(chunks)).Failed?
    ensures ok ==> proxy.Valid() && proxy.fromServer == Flatten(chunks)
    ensures ok && CausalPieces(proxy.config, old(proxy.stage), old(proxy.serverInbuf), chunks) ==>
      Handshake(proxy.config, ServerHello, Flatten(chunks)) == At(proxy.stage, proxy.ToClient() + proxy.serverInbuf, proxy.requests)
  {
    hide Handshake, NextReply, Causal;
    ghost var causal := CausalPieces(proxy.config, proxy.stage, proxy.serverInbuf, chunks);
    assert chunks[0..] == chunks;
    for i := 0 to |chunks|
      invariant proxy.Valid()
      invariant causal ==> proxy.CaughtUp() && CausalPieces(proxy.config, proxy.stage, proxy.serverInbuf, chunks[i..])
      invariant proxy.fromServer == Flatten(chunks[..i])
    {
      assert chunks[..i + 1] == chunks[..i] + [chunks[i]];
      FlattenAppend(chunks[..i], [chunks[i]]);
      assert Flatten([chunks[i]]) == chunks[i] + [] == chunks[i];
      CausalNext(proxy.config, proxy.stage, proxy.serverInbuf, chunks, i);
      ok := proxy.PushServer(chunks[i]);
      if !ok {
        assert chunks == chunks[..i + 1] + chunks[i + 1..];
        FlattenAppend(chunks[..i + 1], chunks[i + 1..]);
        HandshakeAppend(proxy.config, ServerHello, Flatten(chunks[..i + 1]), Flatten(chunks[i + 1..]));
        return;
      }
    }
    assert chunks[..|chunks|] == chunks;
    proxy.DependsOnBytesOnly();
    ok := true;
  }

  /** The stage after a piece, and what is left unread of it. */
  function StageAfter(config: Config, stage: Stage, buffer: Bytes): (Stage, Bytes) {
    var reply := NextReply(config, stage, buffer);
    var (next, rest) := if reply.Accepted? then (reply.next, buffer[reply.length..]) else (stage, buffer);
    (next, if next.Established? then [] else rest)
  }

  /** The server is causal in every piece. */
  predicate CausalPieces(config: Config, stage: Stage, buffer: Bytes, chunks: seq<Bytes>)
    decreases |chunks|
  {
    chunks == [] ||
    var (next, rest) := StageAfter(config, stage, buffer + chunks[0]);
    Causal(config, stage, buffer + chunks[0]) && CausalPieces(config, next, rest, chunks[1..])
  }

  lemma CausalNext(config: Config, stage: Stage, buffer: Bytes, chunks: seq<Bytes>, i: nat)
    requires i < |chunks|
    ensures CausalPieces(config, stage, buffer, chunks[i..]) ==>
      && Causal(config, stage, buffer + chunks[i])
      && var reply := NextReply(config, stage, buffer + chunks[i]);
         var next := if reply.Accepted? then reply.next else stage;
         CausalPieces(
           config, next,
           if next.Established? then [] else if reply.Accepted? then (buffer + chunks[i])[reply.length..] else buffer + chunks[i],
           chunks[i + 1..])
  {
    hide NextReply, Causal;
    assert chunks[i..][1..] == chunks[i + 1..];
  }

  /** The server says nothing behind a reply that the client has still to answer. */
  predicate Causal(config: Config, stage: Stage, buffer: Bytes) {
    var reply := NextReply(config, stage, buffer);
    reply.Accepted? && !reply.next.Established? ==> reply.length == |buffer|
  }

  lemma ShortStays(config: Config, stage: Stage, buffer: Bytes)
    requires NextReply(config, stage, buffer).More?
    ensures Handshake(config, stage, buffer) == At(stage, buffer, [])
  {
  }

  lemma EstablishedReadsNothing(config: Config, buffer: Bytes)
    ensures NextReply(config, Established, buffer).More?
    ensures Handshake(config, Established, buffer) == At(Established, buffer, [])
  {
  }

  lemma NothingNext(config: Config, reply: Reply)
    ensures reply.Accepted? ==> NextReply(config, reply.next, []).More?
  {
  }

  lemma AcceptKeeps(config: Config, replies: Bytes, stage: Stage, requests: Bytes, buffer: Bytes)
    requires Handshake(config, ServerHello, replies) == At(stage, [], requests)
    requires NextReply(config, stage, buffer).Accepted?
    ensures var reply := NextReply(config, stage, buffer);
      Handshake(config, ServerHello, replies + buffer[..reply.length]) == At(reply.next, [], requests + RequestFor(config, reply.next))
  {
    hide Handshake, NextReply;
    var reply := NextReply(config, stage, buffer);
    var taken := buffer[..reply.length];
    HandshakeAppend(config, ServerHello, replies, taken);
    assert [] + taken == taken;
    ReplyExact(config, stage, buffer);
    OneReply(config, stage, taken);
    assert requests + (RequestFor(config, reply.next) + []) == requests + RequestFor(config, reply.next);
  }

  lemma ReplyExact(config: Config, stage: Stage, buffer: Bytes)
    requires NextReply(config, stage, buffer).Accepted?
    ensures var reply := NextReply(config, stage, buffer);
      NextReply(config, stage, buffer[..reply.length]) == reply
  {
    if stage.ReceiveResponse? {
      var n := NextReply(config, stage, buffer).length;
      assert buffer[..n][3..] == buffer[3..][..n - 3];
      ParseAddressLocal(buffer[3..], n - 3);
    }
  }

  lemma OneReply(config: Config, stage: Stage, buffer: Bytes)
    requires var reply := NextReply(config, stage, buffer); reply.Accepted? && reply.length == |buffer|
    ensures var reply := NextReply(config, stage, buffer);
      Handshake(config, stage, buffer) == At(reply.next, [], RequestFor(config, reply.next) + [])
  {
    var reply := NextReply(config, stage, buffer);
    assert buffer[reply.length..] == [];
    NothingNext(config, reply);
    ShortStays(config, reply.next, []);
  }

  lemma NothingRead(config: Config)
    ensures Handshake(config, ServerHello, []) == At(ServerHello, [], [])
  {
  }

  // ---------------------------------------------------------------- pipelined replies

  const HELLO_REPLY: Bytes := [5, 0]
  const CONNECT_REPLY: Bytes := [5, 0, 0, 1, 127, 0, 0, 1, 0, 80]

  lemma RepliesAhead(config: Config)
    requires config.version.V5Socks? && !config.credentials && config.command.Connect?
    ensures NextReply(config, ServerHello, HELLO_REPLY) == Accepted(ReceiveResponse, 2)
    ensures NextReply(config, ServerHello, HELLO_REPLY + CONNECT_REPLY) == Accepted(ReceiveResponse, 2)
    ensures NextReply(config, ReceiveResponse, CONNECT_REPLY) == Accepted(Established, 10)
  {
    var both := HELLO_REPLY + CONNECT_REPLY;
    assert both[0] == 5 && both[1] == 0;
    assert CONNECT_REPLY[3..] == [1, 127, 0, 0, 1, 0, 80];
  }

  /** With a server that answers ahead, where the handshake stands does depend on the pieces. */
  method PipelinedRepliesDepend(hello: Bytes, request: Bytes) returns (whole: SocksProxy, pieces: SocksProxy)
    ensures whole.fromServer == pieces.fromServer && whole.config == pieces.config
    ensures whole.stage.ReceiveResponse? && pieces.stage.Established?
  {
    hide Handshake, NextReply;
    var config := Config(V5Socks, false, Connect, hello, [], request, name => false);
    RepliesAhead(config);
    whole := new SocksProxy(config);
    assert whole.serverInbuf + (HELLO_REPLY + CONNECT_REPLY) == HELLO_REPLY + CONNECT_REPLY;
    var _ := whole.PushServer(HELLO_REPLY + CONNECT_REPLY);
    pieces := new SocksProxy(config);
    assert pieces.serverInbuf + HELLO_REPLY == HELLO_REPLY;
    var _ := pieces.PushServer(HELLO_REPLY);
    assert pieces.serverInbuf == HELLO_REPLY[2..] && pieces.serverInbuf + CONNECT_REPLY == CONNECT_REPLY;
    var _ := pieces.PushServer(CONNECT_REPLY);
  }
}
