/** DNS messages as records, with the checks and lookups of src/dns.rs.

    Names stand for their equivalence class under `names_equal`: letter case and the terminal
    root dot are already removed, so name equality is plain equality here.
 */
module DnsMessages {
  import opened Base

  type Name = string

  datatype Question = Question(name: Name, kind: Word, class_: Word)

  datatype RData = A(v4: nat) | AAAA(v6: nat) | CNAME(target: Name) | OtherData(raw: seq<Byte>)

  datatype Record = Record(owner: Name, data: RData)

  datatype Message = Message(
    id: Word,
    isResponse: bool,
    opcode: Byte,
    responseCode: Byte,
    authenticData: bool,
    questions: seq<Question>,
    answers: seq<Record>,
    authorities: seq<Record>,
    additionals: seq<Record>)

  const OPCODE_QUERY: Byte := 0
  const NO_ERROR: Byte := 0
  const TYPE_AAAA: Word := 28
  const MAX_CNAME_DEPTH: nat := 8

  /** A query this program accepts has exactly one question. */
  predicate IsQuery(message: Message) {
    !message.isResponse && message.opcode == OPCODE_QUERY && |message.questions| == 1
  }

  /** A reply that may answer the request sent as `id` for `question`. */
  predicate IsReplyTo(message: Message, id: Word, question: Question) {
    && message.isResponse
    && message.opcode == OPCODE_QUERY
    && message.id == id
    && message.questions == [question]
  }

  // ---------------------------------------------------------------- IPv6 filtering

  function WithoutIpv6(records: seq<Record>): seq<Record> {
    if records == [] then []
    else (if records[0].data.AAAA? then [] else [records[0]]) + WithoutIpv6(records[1..])
  }

  function RemoveIpv6Entries(message: Message): Message {
    message.(answers := WithoutIpv6(message.answers),
             authorities := WithoutIpv6(message.authorities),
             additionals := WithoutIpv6(message.additionals),
             authenticData := false)
  }

  /** Filtering keeps exactly the other records, in order, and changes nothing when repeated. */
  lemma {:induction false} WithoutIpv6Keeps(records: seq<Record>)
    ensures forall record :: record in WithoutIpv6(records) <==> record in records && !record.data.AAAA?
    ensures WithoutIpv6(WithoutIpv6(records)) == WithoutIpv6(records)
  {
    if records != [] {
      WithoutIpv6Keeps(records[1..]);
      var rest := WithoutIpv6(records[1..]);
      if !records[0].data.AAAA? {
        assert ([records[0]] + rest)[1..] == rest;
      } else {
        assert [] + rest == rest;
      }
    }
  }

  /** No IPv6 address is kept, and every other record as often. */
  ghost predicate SameOthers(all: seq<Record>, kept: seq<Record>) {
    && (forall record :: record in kept ==> !record.data.AAAA?)
    && (forall record: Record :: !record.data.AAAA? ==> multiset(kept)[record] == multiset(all)[record])
  }

  /** The records of `all` other than IPv6 addresses, in order and each as often. */
  ghost predicate NoAAAA(all: seq<Record>, kept: seq<Record>) {
    SameOthers(all, kept) && kept == WithoutIpv6(all)
  }

  ghost predicate WithoutAAAA(message: Message, filtered: Message) {
    && NoAAAA(message.answers, filtered.answers)
    && NoAAAA(message.authorities, filtered.authorities)
    && NoAAAA(message.additionals, filtered.additionals)
    && filtered == message.(answers := filtered.answers, authorities := filtered.authorities,
                            additionals := filtered.additionals, authenticData := false)
  }

  lemma {:induction false} KeepsOthers(records: seq<Record>)
    ensures NoAAAA(records, WithoutIpv6(records))
  {
    if records != [] {
      hide WithoutIpv6;
      KeepsOthers(records[1..]);
      WithoutIpv6First(records);
      FirstKept(records[0], records[1..], WithoutIpv6(records[1..]));
      assert records == [records[0]] + records[1..];
    } else {
      assert WithoutIpv6([]) == [];
    }
  }

  lemma WithoutIpv6First(records: seq<Record>)
    requires records != []
    ensures WithoutIpv6(records) == if records[0].data.AAAA? then WithoutIpv6(records[1..]) else [records[0]] + WithoutIpv6(records[1..])
  {
    assert [] + WithoutIpv6(records[1..]) == WithoutIpv6(records[1..]);
  }

  lemma OneMoreRecord(first: Record, rest: seq<Record>)
    ensures multiset([first] + rest) == multiset{first} + multiset(rest)
  {
  }

  lemma FirstKept(first: Record, all: seq<Record>, kept: seq<Record>)
    requires SameOthers(all, kept)
    ensures SameOthers([first] + all, if first.data.AAAA? then kept else [first] + kept)
  {
    OneMoreRecord(first, all);
    OneMoreRecord(first, kept);
  }

  lemma RemovesOnlyIpv6(message: Message)
    ensures WithoutAAAA(message, RemoveIpv6Entries(message))
  {
    hide NoAAAA;
    KeepsOthers(message.answers);
    KeepsOthers(message.authorities);
    KeepsOthers(message.additionals);
  }

  // ---------------------------------------------------------------- address lookup

  datatype Lookup = Address(ip: nat) | Alias(name: Name)

  datatype LookupError = ServerError(code: Byte) | CnameLoop | NoAddress | ChainTooLong

  predicate IsAddress(record: Record, name: Name, ipv6: bool) {
    record.owner == name && (if ipv6 then record.data.AAAA? else record.data.A?)
  }

  function AddressOf(data: RData): nat
    requires data.A? || data.AAAA?
  {
    if data.A? then data.v4 else data.v6
  }

  /** The first address record of the wanted family owned by `name`. */
  function FirstAddress(answers: seq<Record>, name: Name, ipv6: bool): Option<nat> {
    if answers == [] then None
    else if IsAddress(answers[0], name, ipv6) then Some(AddressOf(answers[0].data))
    else FirstAddress(answers[1..], name, ipv6)
  }

  /** The last alias owned by `name`. */
  function LastAlias(answers: seq<Record>, name: Name): Option<Name> {
    if answers == [] then None
    else
      var last := answers[|answers| - 1];
      if last.owner == name && last.data.CNAME? then Some(last.data.target)
      else LastAlias(answers[..|answers| - 1], name)
  }

  /** The name reached after `hops` aliases: each earlier name has no address of its own and an
      alias to another name. */
  function Reached(answers: seq<Record>, name: Name, ipv6: bool, hops: nat): Option<Name> {
    if hops == 0 then Some(name)
    else
      match Reached(answers, name, ipv6, hops - 1)
      case None => None
      case Some(previous) =>
        if FirstAddress(answers, previous, ipv6).Some? then None
        else if LastAlias(answers, previous) == Some(previous) then None
        else LastAlias(answers, previous)
  }

  function Chain(answers: seq<Record>, question: Question, hops: nat): Option<Name> {
    Reached(answers, question.name, question.kind == TYPE_AAAA, hops)
  }

  lemma {:induction false} FirstAddressSplit(answers: seq<Record>, k: nat, name: Name, ipv6: bool)
    requires k <= |answers|
    requires forall i :: 0 <= i < k ==> !IsAddress(answers[i], name, ipv6)
    ensures FirstAddress(answers, name, ipv6) == FirstAddress(answers[k..], name, ipv6)
  {
    if k == 0 {
      assert answers[0..] == answers;
    } else {
      FirstAddressSplit(answers[1..], k - 1, name, ipv6);
      assert answers[1..][k - 1..] == answers[k..];
    }
  }

  /** One pass over the answers owned by `name`. */
  method ScanAnswers(answers: seq<Record>, name: Name, ipv6: bool)
    returns (address: Option<nat>, alias: Option<Name>)
    ensures address == FirstAddress(answers, name, ipv6)
    ensures address == None ==> alias == LastAlias(answers, name)
  {
    alias := None;
    for i := 0 to |answers|
      invariant forall j :: 0 <= j < i ==> !IsAddress(answers[j], name, ipv6)
      invariant alias == LastAlias(answers[..i], name)
    {
      if IsAddress(answers[i], name, ipv6) {
        FirstAddressSplit(answers, i, name, ipv6);
        return Some(AddressOf(answers[i].data)), alias;
      }
      assert answers[..i + 1][..i] == answers[..i];
      if answers[i].owner == name && answers[i].data.CNAME? {
        alias := Some(answers[i].data.target);
      }
    }
    assert answers[..|answers|] == answers;
    FirstAddressSplit(answers, |answers|, name, ipv6);
    address := None;
  }

  /** The in-message lookup. Its outcome is fixed by the chain of names `Reached`:
      an address is the first address of the first reached name that owns one, an alias is the
      last name of a chain that ends without one. */
  method ExtractAddressOrCname(message: Message, question: Question) returns (r: Result<Lookup, LookupError>)
    ensures message.responseCode != NO_ERROR <==> r.Err? && r.error.ServerError?
    ensures message.responseCode == NO_ERROR ==>
      forall ip :: r == Ok(Address(ip)) <==>
        exists hops: nat :: hops < MAX_CNAME_DEPTH && OwnsAddress(message.answers, question, hops, ip)
    ensures message.responseCode == NO_ERROR ==>
      forall name :: r == Ok(Alias(name)) <==>
        exists hops: nat :: 0 < hops < MAX_CNAME_DEPTH && EndsAt(message.answers, question, hops, name)
    ensures message.responseCode == NO_ERROR ==>
      (r == Err(ChainTooLong) <==>
        Chain(message.answers, question, MAX_CNAME_DEPTH).Some?)
    ensures message.responseCode == NO_ERROR ==>
      (r == Err(CnameLoop) <==>
        exists hops: nat :: hops < MAX_CNAME_DEPTH && LoopsAt(message.answers, question, hops))
    ensures message.responseCode == NO_ERROR ==>
      (r == Err(NoAddress) <==> EndsAt(message.answers, question, 0, question.name))
    ensures forall ip :: r == Ok(Address(ip)) ==>
      exists record :: record in message.answers && record.data == if question.kind == 28 then AAAA(ip) else A(ip)
    ensures message.responseCode == NO_ERROR ==>
      forall k :: FirstFor(message.answers, question, k) ==>
        r == Ok(Address(if question.kind == 28 then message.answers[k].data.v6 else message.answers[k].data.v4))
  {
    if message.responseCode != NO_ERROR {
      return Err(ServerError(message.responseCode));
    }
    var answers := message.answers;
    var ipv6 := question.kind == TYPE_AAAA;
    var current := question.name;
    var followed := false;
    forall k | FirstFor(answers, question, k)
      ensures FirstAddress(answers, question.name, ipv6)
           == Some(if question.kind == 28 then answers[k].data.v6 else answers[k].data.v4)
    {
      FirstIsFound(answers, question, k);
    }
    for hop := 0 to MAX_CNAME_DEPTH
      invariant hop > 0 ==> FirstAddress(answers, question.name, ipv6).None?
      invariant Reached(answers, question.name, ipv6, hop) == Some(current)
      invariant followed == (hop > 0)
    {
      var address, alias := ScanAnswers(answers, current, ipv6);
      AddressIsListed(answers, current, ipv6);
      if address.Some? {
        OnlyEnd(answers, question, hop);
        assert OwnsAddress(answers, question, hop, address.value);
        return Ok(Address(address.value));
      }
      if alias == None || alias == Some(current) {
        OnlyEnd(answers, question, hop);
        assert alias == None ==> EndsAt(answers, question, hop, current);
      }
      match alias
      case Some(name) =>
        if name == current {
          assert LoopsAt(answers, question, hop);
          return Err(CnameLoop);
        }
        current := name;
        followed := true;
      case None =>
        if followed {
          return Ok(Alias(current));
        }
        return Err(NoAddress);
    }
    LongChain(answers, question);
    return Err(ChainTooLong);
  }

  /** The first record of the name asked for that holds an address of the family asked for. */
  ghost predicate FirstFor(answers: seq<Record>, question: Question, k: int) {
    && 0 <= k < |answers| && answers[k].owner == question.name
    && (if question.kind == 28 then answers[k].data.AAAA? else answers[k].data.A?)
    && forall j :: 0 <= j < k && answers[j].owner == question.name ==>
         if question.kind == 28 then !answers[j].data.AAAA? else !answers[j].data.A?
  }

  lemma {:induction false} AddressIsListed(answers: seq<Record>, name: Name, ipv6: bool)
    ensures var first := FirstAddress(answers, name, ipv6);
      first.Some? ==>
        exists record :: record in answers && record.data == if ipv6 then AAAA(first.value) else A(first.value)
  {
    if answers != [] {
      if IsAddress(answers[0], name, ipv6) {
        assert answers[0] in answers;
      } else {
        AddressIsListed(answers[1..], name, ipv6);
      }
    }
  }

  lemma FirstIsFound(answers: seq<Record>, question: Question, k: int)
    requires FirstFor(answers, question, k)
    ensures FirstAddress(answers, question.name, question.kind == TYPE_AAAA)
         == Some(if question.kind == 28 then answers[k].data.v6 else answers[k].data.v4)
  {
    FirstAddressSplit(answers, k, question.name, question.kind == TYPE_AAAA);
    assert answers[k..][0] == answers[k];
  }

  ghost predicate OwnsAddress(answers: seq<Record>, question: Question, hops: nat, ip: nat) {
    var ipv6 := question.kind == TYPE_AAAA;
    match Reached(answers, question.name, ipv6, hops)
    case None => false
    case Some(name) => FirstAddress(answers, name, ipv6) == Some(ip)
  }

  ghost predicate EndsAt(answers: seq<Record>, question: Question, hops: nat, name: Name) {
    var ipv6 := question.kind == TYPE_AAAA;
    && Reached(answers, question.name, ipv6, hops) == Some(name)
    && FirstAddress(answers, name, ipv6) == None
    && LastAlias(answers, name) == None
  }

  ghost predicate LoopsAt(answers: seq<Record>, question: Question, hops: nat) {
    var ipv6 := question.kind == TYPE_AAAA;
    match Reached(answers, question.name, ipv6, hops)
    case None => false
    case Some(name) => FirstAddress(answers, name, ipv6) == None && LastAlias(answers, name) == Some(name)
  }

  /** Beyond a name where the chain stops nothing is reached. */
  lemma {:induction false} ReachedStops(answers: seq<Record>, name: Name, ipv6: bool, stop: nat, hops: nat)
    requires Reached(answers, name, ipv6, stop + 1) == None
    requires hops > stop
    ensures Reached(answers, name, ipv6, hops) == None
  {
    if hops > stop + 1 {
      ReachedStops(answers, name, ipv6, stop, hops - 1);
    }
  }

  /** Before a reached name the chain was still going, so it neither had an address nor ended. */
  lemma {:induction false} GoesOn(answers: seq<Record>, question: Question, hops: nat, earlier: nat)
    requires Chain(answers, question, hops).Some? && earlier < hops
    ensures forall ip :: !OwnsAddress(answers, question, earlier, ip)
    ensures forall name :: !EndsAt(answers, question, earlier, name)
    ensures !LoopsAt(answers, question, earlier)
  {
    if earlier + 1 < hops {
      GoesOn(answers, question, hops - 1, earlier);
    }
  }

  /** A reached name without a further hop is the only place where the chain can end. */
  lemma OnlyEnd(answers: seq<Record>, question: Question, hops: nat)
    requires Chain(answers, question, hops).Some?
    requires Chain(answers, question, hops + 1).None?
    ensures forall k: nat, ip :: OwnsAddress(answers, question, k, ip) ==> k == hops
    ensures forall k: nat, name :: EndsAt(answers, question, k, name) ==> k == hops
    ensures forall k: nat :: LoopsAt(answers, question, k) ==> k == hops
    ensures forall k: nat :: k > hops ==> Chain(answers, question, k).None?
  {
    forall k: nat | k > hops
      ensures Chain(answers, question, k).None?
    {
      ReachedStops(answers, question.name, question.kind == TYPE_AAAA, hops, k);
    }
    forall k: nat, ip | OwnsAddress(answers, question, k, ip)
      ensures k == hops
    {
      assert Chain(answers, question, k).Some?;
      if k < hops { GoesOn(answers, question, hops, k); }
    }
    forall k: nat, name | EndsAt(answers, question, k, name)
      ensures k == hops
    {
      assert Chain(answers, question, k).Some?;
      if k < hops { GoesOn(answers, question, hops, k); }
    }
    forall k: nat | LoopsAt(answers, question, k)
      ensures k == hops
    {
      assert Chain(answers, question, k).Some?;
      if k < hops { GoesOn(answers, question, hops, k); }
    }
  }

  lemma LongChain(answers: seq<Record>, question: Question)
    requires Chain(answers, question, MAX_CNAME_DEPTH).Some?
    ensures forall k: nat, ip :: k < MAX_CNAME_DEPTH ==> !OwnsAddress(answers, question, k, ip)
    ensures forall k: nat, name :: k < MAX_CNAME_DEPTH ==> !EndsAt(answers, question, k, name)
    ensures forall k: nat :: k < MAX_CNAME_DEPTH ==> !LoopsAt(answers, question, k)
  {
    forall k: nat, ip | k < MAX_CNAME_DEPTH
      ensures !OwnsAddress(answers, question, k, ip)
    {
      GoesOn(answers, question, MAX_CNAME_DEPTH, k);
    }
    forall k: nat | k < MAX_CNAME_DEPTH
      ensures !LoopsAt(answers, question, k)
    {
      GoesOn(answers, question, MAX_CNAME_DEPTH, k);
    }
    forall k: nat, name | k < MAX_CNAME_DEPTH
      ensures !EndsAt(answers, question, k, name)
    {
      GoesOn(answers, question, MAX_CNAME_DEPTH, k);
    }
  }
}
