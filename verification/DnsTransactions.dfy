/** Many UDP questions over one DNS-over-TCP connection.

    `Transactions` is src/dns_transactions.rs. `Session` is the queueing of
    `handle_dns_over_tcp_session` in src/lib.rs as a state machine over its select branches.
    The first two bytes of a DNS datagram are its id; the rest is decoded by an arbitrary `parse`.
 */
module DnsTransactions {
  import opened Base
  import opened DnsMessages

  type Parser = seq<Byte> -> Option<Message>

  datatype Datagram = Datagram(id: Word, body: seq<Byte>)

  function Decode(parse: Parser, datagram: Datagram): Option<Message> {
    match parse(datagram.body)
    case None => None
    case Some(message) => Some(message.(id := datagram.id))
  }

  datatype Pending = Pending(request: Datagram, question: Question, clientId: Word)

  type Table = map<Word, Pending>

  const MAX_OUTSTANDING: nat := 256
  const IDS: nat := 0x1_0000

  // ---------------------------------------------------------------- free upstream ids

  /** The k-th id from `start`, wrapping around. */
  function Offset(start: Word, k: nat): Word {
    (start + k) % IDS
  }

  /** `id` is the first id at or after `start`, wrapping around, that is not in use. */
  ghost predicate NearestFree(used: set<Word>, start: Word, id: Word) {
    id !in used && exists k: nat :: Nearest(used, start, id, k)
  }

  ghost predicate Nearest(used: set<Word>, start: Word, id: Word, k: nat) {
    k < IDS && id == Offset(start, k) && forall j: nat :: j < k ==> Offset(start, j) in used
  }

  lemma NearestFreeUnique(used: set<Word>, start: Word, one: Word, two: Word)
    requires NearestFree(used, start, one) && NearestFree(used, start, two)
    ensures one == two
  {
    hide Offset;
    var k: nat :| Nearest(used, start, one, k);
    var l: nat :| Nearest(used, start, two, l);
    assert !(Offset(start, k) in used) && !(Offset(start, l) in used);
  }

  /** The wrap-around search. It visits distinct used ids, so it stops within |used| steps. */
  method FindFreeId(used: set<Word>, start: Word) returns (id: Word)
    requires |used| < IDS
    ensures NearestFree(used, start, id)
  {
    hide Offset;
    OffsetZero(start);
    id := start;
    ghost var k: nat := 0;
    ghost var visited: set<Word> := {};
    while id in used
      invariant Nearest(used, start, id, k)
      invariant forall other :: other in visited ==> exists j: nat :: j < k && other == Offset(start, j)
      invariant |visited| == k && visited <= used
      decreases |used| - k
    {
      if id in visited {
        var j: nat :| j < k && id == Offset(start, j);
        OffsetDistinct(start, j, k);
      }
      SubsetSize(visited + {id}, used);
      OffsetNext(start, k);
      visited := visited + {id};
      id := (id + 1) % IDS;
      k := k + 1;
    }
  }

  lemma OffsetZero(start: Word)
    ensures Offset(start, 0) == start
  {
  }

  lemma OffsetDistinct(start: Word, j: nat, k: nat)
    requires j < k < IDS
    ensures Offset(start, j) != Offset(start, k)
  {
  }

  lemma OffsetNext(start: Word, k: nat)
    ensures (Offset(start, k) + 1) % IDS == Offset(start, k + 1)
  {
  }

  lemma {:induction false} SubsetSize<T>(small: set<T>, large: set<T>)
    requires small <= large
    ensures |small| <= |large|
  {
    assert large == small + (large - small);
  }

  // ---------------------------------------------------------------- the transaction table

  datatype Refusal = Undecodable | NotAQuery | LimitReached

  datatype Rejection = Unsolicited | Mismatch

  predicate InFlight(table: Table, request: Datagram) {
    exists id :: id in table && table[id].request == request
  }

  function QuestionOf(parse: Parser, request: Datagram): Option<Question> {
    match Decode(parse, request)
    case Some(message) => if IsQuery(message) then Some(message.questions[0]) else None
    case None => None
  }

  /** What holds between calls: every entry belongs to one accepted request, and no request is
      in flight twice. */
  ghost predicate Consistent(parse: Parser, table: Table) {
    && |table| <= MAX_OUTSTANDING
    && (forall id :: id in table ==>
          && table[id].clientId == table[id].request.id
          && QuestionOf(parse, table[id].request) == Some(table[id].question))
    && (forall id, other :: id in table && other in table && id != other ==> table[id].request != table[other].request)
  }

  /** The effect of `prepare`: a retry of an unanswered request is swallowed, and a new request
      gets the nearest free upstream id; only its id changes on the way out. */
  ghost predicate Prepared(
    parse: Parser, table: Table, request: Datagram, outcome: Result<Option<Datagram>, Refusal>, table': Table)
  {
    var question := QuestionOf(parse, request);
    if question.None? then (outcome == Err(Undecodable) || outcome == Err(NotAQuery)) && table' == table
    else if InFlight(table, request) then outcome == Ok(None) && table' == table
    else if |table| >= MAX_OUTSTANDING then outcome == Err(LimitReached) && table' == table
    else
      && outcome.Ok? && outcome.value.Some?
      && outcome.value.value.body == request.body
      && NearestFree(table.Keys, request.id, outcome.value.value.id)
      && table' == table[outcome.value.value.id := Pending(request, question.value, request.id)]
  }

  /** The effect of `complete`: a reply is accepted exactly when it answers the pending request
      with its id; that request is then forgotten and the reply carries its client's id. */
  ghost predicate Completed(table: Table, response: Message, outcome: Result<Message, Rejection>, table': Table) {
    if response.id !in table then outcome == Err(Unsolicited) && table' == table
    else if !IsReplyTo(response, response.id, table[response.id].question) then outcome == Err(Mismatch) && table' == table
    else outcome == Ok(response.(id := table[response.id].clientId)) && table' == table - {response.id}
  }

  lemma PreparedKeeps(
    parse: Parser, table: Table, request: Datagram, outcome: Result<Option<Datagram>, Refusal>, table': Table)
    requires Consistent(parse, table) && Prepared(parse, table, request, outcome, table')
    ensures Consistent(parse, table')
    ensures outcome.Ok? && outcome.value.Some? ==>
      var id := outcome.value.value.id;
      |table| < MAX_OUTSTANDING && id !in table && id in table' && table' == table[id := table'[id]]
  {
    hide QuestionOf, Consistent;
    if outcome.Ok? && outcome.value.Some? {
      var id, question := outcome.value.value.id, QuestionOf(parse, request).value;
      assert id !in table;
      EnterKeeps(parse, table, id, Pending(request, question, request.id));
    }
  }

  lemma EnterKeeps(parse: Parser, table: Table, id: Word, pending: Pending)
    requires Consistent(parse, table) && id !in table && |table| < MAX_OUTSTANDING && !InFlight(table, pending.request)
    requires pending.clientId == pending.request.id && QuestionOf(parse, pending.request) == Some(pending.question)
    ensures Consistent(parse, table[id := pending])
  {
    hide QuestionOf;
    assert table[id := pending].Keys == table.Keys + {id};
  }

  lemma CompletedKeeps(parse: Parser, table: Table, response: Message, outcome: Result<Message, Rejection>, table': Table)
    requires Consistent(parse, table) && Completed(table, response, outcome, table')
    ensures Consistent(parse, table')
    ensures outcome.Ok? ==> |table'| == |table| - 1 && response.id in table && table' == table - {response.id}
    ensures outcome.Ok? ==> IsReplyTo(outcome.value, table[response.id].request.id, table[response.id].question)
  {
    if outcome.Ok? {
      assert table'.Keys == table.Keys - {response.id};
    }
  }

  class Transactions {
    const parse: Parser
    var pending: Table

    constructor (parse: Parser)
      ensures this.parse == parse && pending == map[]
      ensures Consistent(parse, pending)
    {
      this.parse := parse;
      pending := map[];
    }

    method Prepare(request: Datagram) returns (r: Result<Option<Datagram>, Refusal>)
      requires Consistent(parse, pending)
      modifies this
      ensures Consistent(parse, pending)
      ensures Prepared(parse, old(pending), request, r, pending)
      ensures r == Err(Undecodable) <==> parse(request.body).None?
      ensures r == Err(NotAQuery) <==>
        && parse(request.body).Some?
        && var query := parse(request.body).value; query.isResponse || query.opcode != 0 || |query.questions| != 1
      ensures r == Err(LimitReached) ==> |old(pending)| == 256
      ensures r.Err? || r.value.None? ==> pending == old(pending)
      ensures r.Ok? && r.value.Some? ==>
        && r.value.value.id !in old(pending) && r.value.value.body == request.body
        && pending == old(pending)[r.value.value.id := Pending(request, parse(request.body).value.questions[0], request.id)]
    {
      var query := Decode(parse, request);
      if query == None {
        return Err(Undecodable);
      }
      if !IsQuery(query.value) {
        return Err(NotAQuery);
      }
      if exists id :: id in pending && pending[id].request == request {
        return Ok(None);
      }
      if |pending| >= MAX_OUTSTANDING {
        return Err(LimitReached);
      }
      var upstreamId := FindFreeId(pending.Keys, query.value.id);
      pending := pending[upstreamId := Pending(request, query.value.questions[0], query.value.id)];
      r := Ok(Some(Datagram(upstreamId, request.body)));
      PreparedKeeps(parse, old(pending), request, r, pending);
    }

    method Complete(response: Message) returns (r: Result<Message, Rejection>)
      requires Consistent(parse, pending)
      modifies this
      ensures Consistent(parse, pending)
      ensures Completed(old(pending), response, r, pending)
      ensures r.Ok? <==>
        && response.id in old(pending) && response.isResponse && response.opcode == 0
        && response.questions == [old(pending)[response.id].question]
      ensures r == Err(Unsolicited) <==> response.id !in old(pending)
      ensures r.Ok? ==>
        r.value == response.(id := old(pending)[response.id].request.id) && pending == old(pending) - {response.id}
      ensures r.Err? ==> pending == old(pending)
    {
      if response.id !in pending {
        return Err(Unsolicited);
      }
      if !IsReplyTo(response, response.id, pending[response.id].question) {
        return Err(Mismatch);
      }
      var clientId := pending[response.id].clientId;
      pending := pending - {response.id};
      r := Ok(response.(id := clientId));
      CompletedKeeps(parse, old(pending), response, r, pending);
    }
  }

  // ---------------------------------------------------------------- the session

  datatype Forwarded = Forwarded(upstreamId: Word, pending: Pending)

  datatype Delivery = Delivery(serial: nat, message: Message)

  /** Every forwarded request has a serial number, its place in `forwarded`; `serials` numbers the
      entries of the transaction table. `queue` is the bounded channel to the upstream, `upstream`
      what the upstream has taken from it, `direct` the queries given to the physical resolver. */
  datatype Session = Session(
    open: bool,
    overflowed: bool,
    table: Table,
    serials: map<Word, nat>,
    queue: seq<nat>,
    upstream: set<nat>,
    direct: set<nat>,
    forwarded: seq<Forwarded>,
    delivered: seq<Delivery>)

  const START := Session(true, false, map[], map[], [], {}, {}, [], [])

  /** One branch of the select loop, with what the transaction table made of it. */
  datatype Step =
    | Request(request: Datagram, isDirect: bool, prepared: Result<Option<Datagram>, Refusal>)
    | UpstreamTakes
    | Answer(message: Message, completed: Result<Message, Rejection>)

  function Enter(s: Session, id: Word, pending: Pending): Session {
    s.(table := s.table[id := pending],
       serials := s.serials[id := |s.forwarded|],
       forwarded := s.forwarded + [Forwarded(id, pending)])
  }

  function Send(s: Session, serial: nat, isDirect: bool): Session {
    if isDirect then s.(direct := s.direct + {serial})
    else if |s.queue| >= MAX_OUTSTANDING then s.(open := false, overflowed := true)
    else s.(queue := s.queue + [serial])
  }

  function Deliver(s: Session, serial: nat, id: Word, reply: Message): Session {
    s.(table := s.table - {id},
       serials := s.serials - {id},
       upstream := s.upstream - {serial},
       direct := s.direct - {serial},
       delivered := s.delivered + [Delivery(serial, reply)])
  }

  ghost predicate NextRequest(
    parse: Parser, s: Session, request: Datagram, isDirect: bool, prepared: Result<Option<Datagram>, Refusal>, s': Session)
  {
    && Prepared(parse, s.table, request, prepared, s'.table)
    && match prepared
       case Err(_) => s' == s.(open := false)
       case Ok(None) => s' == s
       case Ok(Some(datagram)) =>
         datagram.id in s'.table && s' == Send(Enter(s, datagram.id, s'.table[datagram.id]), |s.forwarded|, isDirect)
  }

  /** Any message at all may come from the remote side; the table decides what becomes of it. */
  ghost predicate NextAnswer(s: Session, message: Message, completed: Result<Message, Rejection>, s': Session) {
    && Completed(s.table, message, completed, s'.table)
    && match completed
       case Err(_) => s' == s.(open := false)
       case Ok(reply) => message.id in s.serials && s' == Deliver(s, s.serials[message.id], message.id, reply)
  }

  ghost predicate Next(parse: Parser, s: Session, step: Step, s': Session) {
    s.open &&
    match step
    case Request(request, isDirect, prepared) => NextRequest(parse, s, request, isDirect, prepared, s')
    case UpstreamTakes =>
      s.queue != [] && s' == s.(queue := s.queue[1..], upstream := s.upstream + {s.queue[0]})
    case Answer(message, completed) => NextAnswer(s, message, completed, s')
  }

  /** The table numbers its entries by their forwarded requests. */
  ghost predicate Numbered(s: Session) {
    && s.serials.Keys == s.table.Keys
    && forall id :: id in s.table ==>
         s.serials[id] < |s.forwarded| && s.forwarded[s.serials[id]] == Forwarded(id, s.table[id])
  }

  /** The serial numbers of the unanswered requests. */
  ghost function Live(s: Session): set<nat> {
    s.serials.Values
  }

  /** Where `count` unanswered requests `live` are: each in one place, and nothing else is there. */
  ghost predicate Placed(queue: seq<nat>, upstream: set<nat>, direct: set<nat>, live: set<nat>, count: nat) {
    && (forall i :: 0 <= i < |queue| ==> queue[i] in live && queue[i] !in upstream && queue[i] !in direct)
    && (forall i, j :: 0 <= i < j < |queue| ==> queue[i] != queue[j])
    && upstream <= live && direct <= live && upstream !! direct
    && (forall serial :: serial in live ==> serial in queue || serial in upstream || serial in direct)
    && count == |queue| + |upstream| + |direct|
  }

  /** A delivered reply answers the request with its serial number, under the client's own id. */
  ghost predicate Faithful(forwarded: seq<Forwarded>, delivery: Delivery) {
    && delivery.serial < |forwarded|
    && var pending := forwarded[delivery.serial].pending;
       IsReplyTo(delivery.message, pending.request.id, pending.question)
  }

  /** Each request is answered at most once, and none is lost. */
  ghost predicate Accounted(forwarded: seq<Forwarded>, delivered: seq<Delivery>, live: set<nat>, count: nat) {
    && |forwarded| == |delivered| + count
    && (forall i :: 0 <= i < |delivered| ==> Faithful(forwarded, delivered[i]) && delivered[i].serial !in live)
    && (forall i, j :: 0 <= i < j < |delivered| ==> delivered[i].serial != delivered[j].serial)
  }

  /** What holds whatever the remote side sends. */
  ghost predicate Safe(parse: Parser, s: Session) {
    && Consistent(parse, s.table)
    && Numbered(s)
    && Accounted(s.forwarded, s.delivered, Live(s), |s.table|)
  }

  /** What holds besides, as long as no request is answered before it is taken from the channel. */
  ghost predicate Inv(parse: Parser, s: Session) {
    Safe(parse, s) && !s.overflowed && Placed(s.queue, s.upstream, s.direct, Live(s), |s.table|)
  }

  lemma EnterNumbers(s: Session, id: Word, pending: Pending)
    requires Numbered(s) && id !in s.table
    ensures Numbered(Enter(s, id, pending))
    ensures Live(Enter(s, id, pending)) == Live(s) + {|s.forwarded|}
    ensures |s.forwarded| !in Live(s)
    ensures |Enter(s, id, pending).table| == |s.table| + 1
  {
    hide Numbered;
    NumbersBelow(s);
    AddValue(s.serials, id, |s.forwarded|);
    OneMore(s.table, id, pending);
    assert Numbered(Enter(s, id, pending)) by { StillNumbered(s, id, pending); }
  }

  lemma NumbersBelow(s: Session)
    requires Numbered(s)
    ensures |s.forwarded| !in Live(s)
    ensures s.serials.Keys == s.table.Keys
  {
    forall other | other in s.serials
      ensures s.serials[other] < |s.forwarded|
    {
      assert other in s.table;
    }
  }

  lemma StillNumbered(s: Session, id: Word, pending: Pending)
    requires Numbered(s) && id !in s.table
    ensures Numbered(Enter(s, id, pending))
  {
  }

  lemma OneMore(table: Table, id: Word, pending: Pending)
    requires id !in table
    ensures |table[id := pending]| == |table| + 1
  {
    assert table[id := pending].Keys == table.Keys + {id};
  }

  lemma AddValue(serials: map<Word, nat>, id: Word, serial: nat)
    requires id !in serials
    ensures serials[id := serial].Values == serials.Values + {serial}
  {
    var more := serials[id := serial];
    assert more[id] == serial;
    forall value | value in serials.Values
      ensures value in more.Values
    {
      var other :| other in serials && serials[other] == value;
      assert more[other] == value;
    }
  }

  lemma EnterAccounts(forwarded: seq<Forwarded>, more: Forwarded, delivered: seq<Delivery>, live: set<nat>, count: nat)
    requires Accounted(forwarded, delivered, live, count)
    ensures Accounted(forwarded + [more], delivered, live + {|forwarded|}, count + 1)
  {
    assert forall i :: 0 <= i < |delivered| ==> Faithful(forwarded, delivered[i]);
  }

  lemma EnterPlaces(
    queue: seq<nat>, upstream: set<nat>, direct: set<nat>, live: set<nat>, count: nat, serial: nat)
    requires Placed(queue, upstream, direct, live, count) && serial !in live
    ensures |queue| <= count
    ensures Placed(queue, upstream, direct + {serial}, live + {serial}, count + 1)
    ensures Placed(queue + [serial], upstream, direct, live + {serial}, count + 1)
  {
  }

  lemma DeliverPlaces(
    queue: seq<nat>, upstream: set<nat>, direct: set<nat>, live: set<nat>, count: nat, serial: nat)
    requires Placed(queue, upstream, direct, live, count) && serial in live && serial !in queue
    ensures count > 0
    ensures Placed(queue, upstream - {serial}, direct - {serial}, live - {serial}, count - 1)
  {
    if serial in upstream {
      assert direct - {serial} == direct;
    } else {
      assert upstream - {serial} == upstream;
    }
  }

  lemma RequestSafe(parse: Parser, s: Session, step: Step, s': Session)
    requires Safe(parse, s) && Next(parse, s, step, s') && step.Request?
    ensures Safe(parse, s')
    ensures !s.overflowed ==> (s'.open <==> s.open && step.prepared.Ok? && !s'.overflowed)
  {
    hide Prepared, Consistent, Numbered, Accounted, Live;
    PreparedKeeps(parse, s.table, step.request, step.prepared, s'.table);
    if step.prepared.Ok? && step.prepared.value.Some? {
      var id := step.prepared.value.value.id;
      EnterNumbers(s, id, s'.table[id]);
      EnterAccounts(s.forwarded, Forwarded(id, s'.table[id]), s.delivered, Live(s), |s.table|);
      SameNumbers(Enter(s, id, s'.table[id]), s');
    } else {
      SameNumbers(s, s');
    }
  }

  /** The transaction limit bounds the request channel: an accepted request always finds room. */
  lemma RequestKeeps(parse: Parser, s: Session, step: Step, s': Session)
    requires Inv(parse, s) && Next(parse, s, step, s') && step.Request?
    ensures Inv(parse, s')
  {
    hide Prepared, Consistent, Numbered, Placed, Accounted, Live;
    RequestSafe(parse, s, step, s');
    PreparedKeeps(parse, s.table, step.request, step.prepared, s'.table);
    if step.prepared.Ok? && step.prepared.value.Some? {
      var id := step.prepared.value.value.id;
      EnterNumbers(s, id, s'.table[id]);
      EnterPlaces(s.queue, s.upstream, s.direct, Live(s), |s.table|, |s.forwarded|);
      SameNumbers(Enter(s, id, s'.table[id]), s');
    } else {
      SameNumbers(s, s');
    }
  }

  lemma SameNumbers(s: Session, s': Session)
    requires s'.table == s.table && s'.serials == s.serials && s'.forwarded == s.forwarded
    ensures Numbered(s) <==> Numbered(s')
    ensures Live(s) == Live(s')
  {
  }

  lemma TakeSafe(parse: Parser, s: Session, step: Step, s': Session)
    requires Safe(parse, s) && Next(parse, s, step, s') && step.UpstreamTakes?
    ensures Safe(parse, s')
  {
    hide Consistent, Accounted, Numbered;
    SameNumbers(s, s');
  }

  lemma TakeKeeps(parse: Parser, s: Session, step: Step, s': Session)
    requires Inv(parse, s) && Next(parse, s, step, s') && step.UpstreamTakes?
    ensures Inv(parse, s')
  {
    hide Safe, Live;
    TakeSafe(parse, s, step, s');
    SameNumbers(s, s');
  }

  lemma DeliverNumbers(s: Session, serial: nat, reply: Message)
    requires Numbered(s) && serial in Live(s)
    ensures serial < |s.forwarded| && s.forwarded[serial].upstreamId in s.table
    ensures s.forwarded[serial].pending == s.table[s.forwarded[serial].upstreamId]
    ensures Numbered(Deliver(s, serial, s.forwarded[serial].upstreamId, reply))
    ensures Live(Deliver(s, serial, s.forwarded[serial].upstreamId, reply)) == Live(s) - {serial}
  {
    var id :| id in s.serials && s.serials[id] == serial;
    var t := Deliver(s, serial, id, reply);
    forall other | other in Live(s) && other != serial
      ensures other in Live(t)
    {
      var key :| key in s.serials && s.serials[key] == other;
      assert t.serials[key] == other;
    }
  }

  lemma DeliverAccounts(forwarded: seq<Forwarded>, delivered: seq<Delivery>, more: Delivery, live: set<nat>, count: nat)
    requires Accounted(forwarded, delivered, live, count)
    requires Faithful(forwarded, more) && more.serial in live && count > 0
    ensures Accounted(forwarded, delivered + [more], live - {more.serial}, count - 1)
  {
  }

  /** The entry under an id, by its serial number. */
  lemma NumberOf(s: Session, id: Word)
    requires Numbered(s) && id in s.table
    ensures id in s.serials && s.serials[id] in Live(s)
    ensures s.serials[id] < |s.forwarded| && s.forwarded[s.serials[id]] == Forwarded(id, s.table[id])
  {
  }

  /** Whatever message arrives, it is delivered only as the answer to the one forwarded request under
      its id, whose question it repeats, and under that request's own id; or it ends the session. */
  lemma AnswerSafe(parse: Parser, s: Session, step: Step, s': Session)
    requires Safe(parse, s) && Next(parse, s, step, s') && step.Answer?
    ensures Safe(parse, s')
    ensures step.completed.Err? ==> s'.delivered == s.delivered && !s'.open
    ensures step.completed.Ok? ==>
      && step.message.id in s.serials && s.serials[step.message.id] in Live(s) && |s'.table| == |s.table| - 1
      && Live(s') == Live(s) - {s.serials[step.message.id]}
      && s'.delivered == s.delivered + [Delivery(s.serials[step.message.id], step.completed.value)]
  {
    hide Completed, Consistent, Numbered, Accounted, IsReplyTo, Live;
    CompletedKeeps(parse, s.table, step.message, step.completed, s'.table);
    if step.completed.Ok? {
      NumberOf(s, step.message.id);
      var serial := s.serials[step.message.id];
      DeliverNumbers(s, serial, step.completed.value);
      ClientId(parse, s.table, step.message.id);
      assert Faithful(s.forwarded, Delivery(serial, step.completed.value));
      DeliverAccounts(s.forwarded, s.delivered, Delivery(serial, step.completed.value), Live(s), |s.table|);
    } else {
      SameNumbers(s, s');
    }
  }

  lemma ClientId(parse: Parser, table: Table, id: Word)
    requires Consistent(parse, table) && id in table
    ensures table[id].clientId == table[id].request.id
  {
  }

  /** No accepted reply is to a request that is still in the channel. */
  ghost predicate TakenFirst(s: Session, step: Step) {
    step.Answer? && step.completed.Ok? && step.message.id in s.serials ==> s.serials[step.message.id] !in s.queue
  }

  lemma AnswerKeeps(parse: Parser, s: Session, step: Step, s': Session)
    requires Inv(parse, s) && Next(parse, s, step, s') && step.Answer? && TakenFirst(s, step)
    ensures Inv(parse, s')
  {
    hide Completed, Safe, Placed, Live;
    AnswerSafe(parse, s, step, s');
    if step.completed.Ok? {
      DeliverPlaces(s.queue, s.upstream, s.direct, Live(s), |s.table|, s.serials[step.message.id]);
    } else {
      assert s'.table == s.table by { RejectedSame(s.table, step.message, step.completed, s'.table); }
      SameNumbers(s, s');
    }
  }

  lemma RejectedSame(table: Table, message: Message, completed: Result<Message, Rejection>, table': Table)
    requires Completed(table, message, completed, table') && completed.Err?
    ensures table' == table
  {
  }

  ghost predicate Run(parse: Parser, states: seq<Session>, steps: seq<Step>) {
    && |states| == |steps| + 1
    && states[0] == START
    && forall i :: 0 <= i < |steps| ==> Next(parse, states[i], steps[i], states[i + 1])
  }

  /** Over every run of the session, whatever the remote side sends and whenever: a delivered message
      answers one forwarded request under its client's id, each request at most once, and every request
      is answered or still in the table. */
  lemma {:induction false} RunSafe(parse: Parser, states: seq<Session>, steps: seq<Step>)
    requires Run(parse, states, steps)
    ensures Safe(parse, states[|steps|])
    decreases |steps|
  {
    if steps != [] {
      hide Safe, Next;
      var n := |steps| - 1;
      assert Next(parse, states[n], steps[n], states[n + 1]);
      RunSafe(parse, states[..n + 1], steps[..n]);
      match steps[n]
      case Request(_, _, _) => RequestSafe(parse, states[n], steps[n], states[n + 1]);
      case UpstreamTakes => TakeSafe(parse, states[n], steps[n], states[n + 1]);
      case Answer(_, _) => AnswerSafe(parse, states[n], steps[n], states[n + 1]);
    }
  }

  /** If moreover no request is answered before it is taken from the channel, the channel never
      overflows, and each unanswered request is in exactly one place. */
  lemma {:induction false} ChannelNeverOverflows(parse: Parser, states: seq<Session>, steps: seq<Step>)
    requires Run(parse, states, steps) && forall i :: 0 <= i < |steps| ==> TakenFirst(states[i], steps[i])
    ensures Inv(parse, states[|steps|])
    decreases |steps|
  {
    if steps != [] {
      hide Inv, Next, TakenFirst;
      var n := |steps| - 1;
      assert Next(parse, states[n], steps[n], states[n + 1]);
      ChannelNeverOverflows(parse, states[..n + 1], steps[..n]);
      match steps[n]
      case Request(_, _, _) => RequestKeeps(parse, states[n], steps[n], states[n + 1]);
      case UpstreamTakes => TakeKeeps(parse, states[n], steps[n], states[n + 1]);
      case Answer(_, _) => AnswerKeeps(parse, states[n], steps[n], states[n + 1]);
    }
  }

  // ---------------------------------------------------------------- answers ahead of their requests

  /** The session after the requests with the ids below `n`, of which the upstream has taken none. */
  ghost function Filled(body: seq<Byte>, question: Question, n: nat): Session
    requires n <= MAX_OUTSTANDING
  {
    if n == 0 then START
    else Send(Enter(Filled(body, question, n - 1), n - 1, Asked(body, question, n - 1)), n - 1, false)
  }

  function Asked(body: seq<Byte>, question: Question, id: Word): Pending {
    Pending(Datagram(id, body), question, id)
  }

  ghost predicate Holds(s: Session, body: seq<Byte>, question: Question, n: nat) {
    && s.open && !s.overflowed && |s.table| == |s.queue| == |s.forwarded| == n
    && s.table.Keys == s.serials.Keys
    && (forall id :: id in s.table <==> 0 <= id < n)
    && (forall id :: id in s.table ==> s.table[id] == Asked(body, question, id))
  }

  lemma HoldsMore(s: Session, body: seq<Byte>, question: Question, n: Word)
    requires n < MAX_OUTSTANDING && Holds(s, body, question, n)
    ensures Holds(Send(Enter(s, n, Asked(body, question, n)), n, false), body, question, n + 1)
  {
    OneMore(s.table, n, Asked(body, question, n));
  }

  lemma {:induction false} FilledHolds(body: seq<Byte>, question: Question, n: nat)
    requires n <= MAX_OUTSTANDING
    ensures Holds(Filled(body, question, n), body, question, n)
  {
    if n > 0 {
      hide Holds;
      FilledHolds(body, question, n - 1);
      HoldsMore(Filled(body, question, n - 1), body, question, n - 1);
    }
  }

  ghost predicate Asks(parse: Parser, body: seq<Byte>, question: Question) {
    forall id: Word :: QuestionOf(parse, Datagram(id, body)) == Some(question)
  }

  /** A new request with an unused id goes out under it. */
  lemma AcceptsNext(parse: Parser, body: seq<Byte>, question: Question, table: Table, id: Word)
    requires Asks(parse, body, question) && |table| < MAX_OUTSTANDING && id !in table
    requires forall other :: other in table ==> table[other] == Asked(body, question, other)
    ensures Prepared(parse, table, Datagram(id, body), Ok(Some(Datagram(id, body))), table[id := Asked(body, question, id)])
  {
    hide QuestionOf;
    OffsetZero(id);
    assert Nearest(table.Keys, id, id, 0);
    assert QuestionOf(parse, Datagram(id, body)) == Some(question);
  }

  ghost function Ask(body: seq<Byte>, id: Word): Step {
    Request(Datagram(id, body), false, Ok(Some(Datagram(id, body))))
  }

  /** The bound on the channel does need its condition: after as many requests as may be outstanding,
      a reply to one that is still in the channel makes room in the table but not in the channel, and
      the next request overflows it. */
  lemma EarlyAnswerOverflows(parse: Parser, body: seq<Byte>, question: Question, reply: Message)
    returns (states: seq<Session>, steps: seq<Step>)
    requires Asks(parse, body, question) && IsReplyTo(reply, 0, question)
    ensures Run(parse, states, steps) && states[|steps|].overflowed
  {
    hide Asks, Holds, Filled, Next, Run, IsReplyTo;
    var full := Filled(body, question, MAX_OUTSTANDING);
    FilledHolds(body, question, MAX_OUTSTANDING);
    var answered, last := TwoMore(parse, full, body, question, reply);
    states, steps := Filling(parse, body, question, MAX_OUTSTANDING);
    RunMore(parse, states, steps, Answer(reply, Ok(reply)), answered);
    states, steps := states + [answered], steps + [Answer(reply, Ok(reply))];
    RunMore(parse, states, steps, Ask(body, MAX_OUTSTANDING), last);
    states, steps := states + [last], steps + [Ask(body, MAX_OUTSTANDING)];
  }

  lemma TwoMore(parse: Parser, full: Session, body: seq<Byte>, question: Question, reply: Message)
    returns (answered: Session, last: Session)
    requires Holds(full, body, question, MAX_OUTSTANDING) && Asks(parse, body, question) && IsReplyTo(reply, 0, question)
    ensures Next(parse, full, Answer(reply, Ok(reply)), answered)
    ensures Next(parse, answered, Ask(body, MAX_OUTSTANDING), last) && last.overflowed
  {
    hide Asks, Prepared, Completed;
    answered := Deliver(full, full.serials[0], 0, reply);
    AnswersFirst(full.table, question, body, reply);
    AcceptsNext(parse, body, question, answered.table, MAX_OUTSTANDING);
    last := Send(Enter(answered, MAX_OUTSTANDING, Asked(body, question, MAX_OUTSTANDING)), |full.forwarded|, false);
  }

  lemma AnswersFirst(table: Table, question: Question, body: seq<Byte>, reply: Message)
    requires 0 in table && table[0] == Asked(body, question, 0) && IsReplyTo(reply, 0, question)
    ensures Completed(table, reply, Ok(reply), table - {0}) && |table - {0}| == |table| - 1
  {
    assert reply.(id := 0) == reply;
    assert (table - {0}).Keys == table.Keys - {0};
  }

  lemma {:induction false} Filling(parse: Parser, body: seq<Byte>, question: Question, n: nat)
    returns (states: seq<Session>, steps: seq<Step>)
    requires n <= MAX_OUTSTANDING && Asks(parse, body, question)
    ensures |steps| == n && |states| == n + 1 && Run(parse, states, steps) && states[n] == Filled(body, question, n)
  {
    if n == 0 {
      return [START], [];
    }
    hide Asks, Next, Run, Filled;
    states, steps := Filling(parse, body, question, n - 1);
    FilledNext(parse, body, question, n - 1);
    RunMore(parse, states, steps, Ask(body, n - 1), Filled(body, question, n));
    states, steps := states + [Filled(body, question, n)], steps + [Ask(body, n - 1)];
  }

  lemma FilledNext(parse: Parser, body: seq<Byte>, question: Question, n: nat)
    requires n < MAX_OUTSTANDING && Asks(parse, body, question)
    ensures Next(parse, Filled(body, question, n), Ask(body, n), Filled(body, question, n + 1))
  {
    hide Asks, Prepared;
    FilledHolds(body, question, n);
    AcceptsNext(parse, body, question, Filled(body, question, n).table, n);
  }

  lemma RunMore(parse: Parser, states: seq<Session>, steps: seq<Step>, step: Step, next: Session)
    requires Run(parse, states, steps) && Next(parse, states[|steps|], step, next)
    ensures |states| == |steps| + 1 && Run(parse, states + [next], steps + [step])
  {
    hide Next;
    var longer, more := states + [next], steps + [step];
    forall i | 0 <= i < |more|
      ensures Next(parse, longer[i], more[i], longer[i + 1])
    {
      assert i < |steps| ==> longer[i] == states[i] && longer[i + 1] == states[i + 1] && more[i] == steps[i];
    }
  }
}
