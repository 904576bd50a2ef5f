/** Attribution of DNS questions to the process that asked (src/dns_routing/windows.rs).

    DNS events and the program's own checkpoints travel in one ordered event stream. `synchronize`
    writes a checkpoint, or shares a later one, and returns once it has been delivered: everything
    written to the stream before the call has then been recorded. The protocol is a state machine
    over the atomic steps of any number of callers, their blocking writes and the event consumer.
 */
module CheckpointFence {
  import opened Base

  datatype Question = Question(name: string, kind: Word)

  datatype Dns = Dns(question: Question, pid: nat, at: nat)

  // ---------------------------------------------------------------- the origin table

  const ORIGIN_TTL: nat := 30_000
  const MAX_ORIGINS: nat := 4096

  datatype Origin = Origin(pid: nat, at: nat)

  type Origins = map<Question, Origin>

  /** Saturating age of an entry, in milliseconds. */
  function Age(now: nat, at: nat): nat {
    if now < at then 0 else now - at
  }

  predicate Oldest(entries: Origins, question: Question) {
    question in entries && forall other :: other in entries ==> entries[question].at <= entries[other].at
  }

  lemma {:induction false} OldestExists(entries: Origins)
    requires entries != map[]
    ensures exists question :: Oldest(entries, question)
  {
    var some :| some in entries;
    var rest := entries - {some};
    if rest == map[] {
      assert forall other :: other in entries && other != some ==> other in rest;
      assert Oldest(entries, some);
    } else {
      OldestExists(rest);
      var best :| Oldest(rest, best);
      assert forall other :: other in entries && other != some ==> other in rest && rest[other] == entries[other];
      assert Oldest(entries, if entries[some].at <= entries[best].at then some else best);
    }
  }

  class OriginTable {
    var queries: Origins

    constructor ()
      ensures queries == map[]
    {
      queries := map[];
    }

    /** Keeps the most recent caller of a question. A full table first drops what has expired, and
        if that is not enough, one entry no younger entry outlives. */
    method Record(question: Question, pid: nat, now: nat)
      requires |queries| <= MAX_ORIGINS
      modifies this
      ensures |queries| <= MAX_ORIGINS
      ensures Recorded(old(queries), Dns(question, pid, now), queries)
    {
      hide Recorded, Age;
      NoCaller(queries, Dns(question, pid, now));
      if pid == 0 {
        return;
      }
      ghost var event := Dns(question, pid, now);
      RecordedRoom(queries, event);
      if |queries| >= MAX_ORIGINS {
        queries := map q | q in queries && Age(now, queries[q].at) < ORIGIN_TTL :: queries[q];
        SubmapSize(queries, old(queries));
        RecordedPurged(old(queries), event, queries);
        if |queries| >= MAX_ORIGINS {
          OldestExists(queries);
          var oldest :| Oldest(queries, oldest);
          RecordedEvicted(old(queries), event, queries, oldest);
          ghost var young := queries;
          queries := queries - {oldest};
          assert queries.Keys == young.Keys - {oldest};
        }
      }
      queries := queries[question := Origin(pid, now)];
    }
  }

  function Lookup(entries: Origins, question: Question, now: nat): Option<nat> {
    if question in entries && Age(now, entries[question].at) < ORIGIN_TTL then Some(entries[question].pid) else None
  }

  lemma {:induction false} SubmapSize(small: Origins, large: Origins)
    requires small.Keys <= large.Keys
    ensures |small| <= |large|
  {
    assert large.Keys == small.Keys + (large.Keys - small.Keys);
    assert |small.Keys| <= |large.Keys|;
  }

  ghost predicate Recorded(entries: Origins, event: Dns, entries': Origins) {
    if event.pid == 0 then entries' == entries
    else
      && event.question in entries'
      && entries'[event.question] == Origin(event.pid, event.at)
      && (forall q :: q in entries' && q != event.question ==> q in entries && entries'[q] == entries[q])
      && (|entries| < MAX_ORIGINS ==> forall q :: q in entries ==> q in entries')
      && (forall q :: q in entries && q !in entries' ==>
            || event.at >= entries[q].at + 30_000
            || forall other :: other in entries' && other != event.question ==> entries[q].at <= entries'[other].at)
      && (|entries| >= MAX_ORIGINS ==>
            && (forall q :: q in entries' && q != event.question ==> event.at < entries'[q].at + 30_000)
            && (forall p, q :: Forgotten(entries, event, entries', p) && Forgotten(entries, event, entries', q) ==> p == q))
  }

  /** An entry that had not expired is gone. */
  ghost predicate Forgotten(entries: Origins, event: Dns, entries': Origins, question: Question) {
    question in entries && question !in entries' && event.at < entries[question].at + 30_000
  }

  lemma NoCaller(entries: Origins, event: Dns)
    ensures event.pid == 0 ==> Recorded(entries, event, entries)
  {
  }

  lemma RecordedRoom(entries: Origins, event: Dns)
    ensures |entries| < MAX_ORIGINS && event.pid != 0 ==>
      Recorded(entries, event, entries[event.question := Origin(event.pid, event.at)])
  {
  }

  lemma RecordedPurged(entries: Origins, event: Dns, young: Origins)
    requires |entries| >= MAX_ORIGINS && event.pid != 0
    requires young == map q | q in entries && Age(event.at, entries[q].at) < ORIGIN_TTL :: entries[q]
    ensures Recorded(entries, event, young[event.question := Origin(event.pid, event.at)])
  {
  }

  lemma RecordedEvicted(entries: Origins, event: Dns, young: Origins, oldest: Question)
    requires |entries| >= MAX_ORIGINS && event.pid != 0 && Oldest(young, oldest)
    requires young == map q | q in entries && Age(event.at, entries[q].at) < ORIGIN_TTL :: entries[q]
    ensures Recorded(entries, event, (young - {oldest})[event.question := Origin(event.pid, event.at)])
  {
  }

  /** The last event for a question that names a process. */
  function LastFor(history: seq<Dns>, question: Question): Option<Origin> {
    if history == [] then None
    else
      var last := history[|history| - 1];
      if last.question == question && last.pid != 0 then Some(Origin(last.pid, last.at))
      else LastFor(history[..|history| - 1], question)
  }

  /** The table never remembers anything but the latest caller of a question. */
  ghost predicate Sound(history: seq<Dns>, entries: Origins) {
    forall q :: q in entries ==> LastFor(history, q) == Some(entries[q])
  }

  lemma RecordedSound(history: seq<Dns>, entries: Origins, event: Dns, entries': Origins)
    requires Sound(history, entries) && Recorded(entries, event, entries')
    ensures Sound(history + [event], entries')
  {
    assert (history + [event])[..|history|] == history;
  }

  /** A recorded caller is named for thirty seconds, and not afterwards; the recording of another
      question never changes who is named, though a full table may forget. */
  lemma RecordedIsNamed(entries: Origins, event: Dns, entries': Origins, question: Question, now: nat)
    requires Recorded(entries, event, entries')
    ensures question == event.question && event.pid != 0 ==>
      Lookup(entries', question, now) == if now < event.at + 30_000 then Some(event.pid) else None
    ensures question != event.question || event.pid == 0 ==>
      && (Lookup(entries', question, now).Some? ==> Lookup(entries', question, now) == Lookup(entries, question, now))
      && (|entries| < MAX_ORIGINS ==> Lookup(entries', question, now) == Lookup(entries, question, now))
  {
  }

  /** Nothing is forgotten. */
  ghost predicate Complete(history: seq<Dns>, entries: Origins) {
    forall q :: LastFor(history, q).Some? ==> q in entries
  }

  lemma RecordedComplete(history: seq<Dns>, entries: Origins, event: Dns, entries': Origins)
    requires Complete(history, entries) && Recorded(entries, event, entries') && |entries| < MAX_ORIGINS
    ensures Complete(history + [event], entries')
  {
    assert (history + [event])[..|history|] == history;
  }

  // ---------------------------------------------------------------- the protocol

  datatype Event = Asked(event: Dns) | Checkpoint(sequence: nat)

  /** A call of `synchronize`. `begun` is how much had been written to the stream when it started;
      `observed` is the checkpoint counter it loaded first. */
  datatype Caller =
    | Called(begun: nat)
    | Queued(begun: nat, observed: nat)
    | Locked(begun: nat, observed: nat)
    | Writing(begun: nat, observed: nat, sequence: nat)
    | Waiting(begun: nat, observed: nat, sequence: nat)
    | Returned(begun: nat)
    | GaveUp

  datatype State = State(
    stream: seq<Event>,
    position: nat,
    recorded: seq<Dns>,
    entries: Origins,
    delivered: nat,
    sequence: nat,
    unwritten: set<nat>,
    slot: Option<nat>,
    callers: map<nat, Caller>)

  const START := State([], 0, [], map[], 0, 0, {}, None, map[])

  /** What a caller that is already running does next. */
  datatype Move = Load | Acquire | Share | Issue | Confirm | Finish | Abandon

  datatype Step =
    | Emit(event: Dns)
    | Call(id: nat)
    | By(id: nat, move: Move)
    | TaskWrites(sequence: nat)
    | TaskFails(sequence: nat)
    | Deliver(entries: Origins)

  predicate HoldsSlot(caller: Caller) {
    caller.Locked? || caller.Writing? || caller.Waiting?
  }

  function Advance(s: State, id: nat, caller: Caller): State {
    s.(callers := s.callers[id := caller],
       slot := if HoldsSlot(caller) then Some(id) else if s.slot == Some(id) then None else s.slot)
  }

  /** What the event callback does with the next event of the stream. */
  ghost predicate Consumes(s: State, entries: Origins, s': State) {
    && s.position < |s.stream|
    && match s.stream[s.position]
       case Asked(event) =>
         && Recorded(s.entries, event, entries)
         && s' == s.(position := s.position + 1, entries := entries, recorded := s.recorded + [event])
       case Checkpoint(sequence) =>
         s' == s.(position := s.position + 1, delivered := if sequence > s.delivered then sequence else s.delivered)
  }

  /** The steps of `synchronize`. A caller may time out or be dropped at any point; the write it
      issued may still happen later. */
  ghost predicate Moves(s: State, id: nat, caller: Caller, move: Move, s': State) {
    match move
    case Load => caller.Called? && s' == Advance(s, id, Queued(caller.begun, s.sequence))
    case Acquire => caller.Queued? && s.slot == None && s' == Advance(s, id, Locked(caller.begun, caller.observed))
    case Share => caller.Locked? && s.delivered > caller.observed && s' == Advance(s, id, Returned(caller.begun))
    case Issue =>
      && caller.Locked? && s.delivered <= caller.observed
      && s' == Advance(s, id, Writing(caller.begun, caller.observed, s.sequence + 1))
               .(sequence := s.sequence + 1, unwritten := s.unwritten + {s.sequence + 1})
    case Confirm =>
      && caller.Writing? && caller.sequence !in s.unwritten
      && s' == Advance(s, id, Waiting(caller.begun, caller.observed, caller.sequence))
    case Finish => caller.Waiting? && s.delivered >= caller.sequence && s' == Advance(s, id, Returned(caller.begun))
    case Abandon => !caller.Returned? && s' == Advance(s, id, GaveUp)
  }

  ghost predicate Next(s: State, step: Step, s': State) {
    match step
    case Emit(event) => s' == s.(stream := s.stream + [Asked(event)])
    case Call(id) => id !in s.callers && s' == Advance(s, id, Called(|s.stream|))
    case By(id, move) => id in s.callers && Moves(s, id, s.callers[id], move, s')
    case TaskWrites(sequence) =>
      && sequence in s.unwritten
      && s' == s.(stream := s.stream + [Checkpoint(sequence)], unwritten := s.unwritten - {sequence})
    case TaskFails(sequence) => sequence in s.unwritten && s' == s.(unwritten := s.unwritten - {sequence})
    case Deliver(entries) => Consumes(s, entries, s')
  }

  /** The checkpoints numbered above what a caller observed were all written after it was called. */
  ghost predicate Fenced(stream: seq<Event>, begun: nat, observed: nat) {
    && begun <= |stream|
    && forall i :: 0 <= i < |stream| && stream[i].Checkpoint? && stream[i].sequence > observed ==> begun <= i
  }

  ghost predicate CallerInv(stream: seq<Event>, position: nat, counter: nat, caller: Caller) {
    match caller
    case Called(begun) => begun <= |stream|
    case Queued(begun, observed) => Fenced(stream, begun, observed) && observed <= counter
    case Locked(begun, observed) => Fenced(stream, begun, observed) && observed <= counter
    case Writing(begun, observed, sequence) => Fenced(stream, begun, observed) && observed < sequence <= counter
    case Waiting(begun, observed, sequence) => Fenced(stream, begun, observed) && observed < sequence <= counter
    case Returned(begun) => begun <= position
    case GaveUp => true
  }

  function Questions(stream: seq<Event>): seq<Dns> {
    if stream == [] then []
    else
      var last := stream[|stream| - 1];
      Questions(stream[..|stream| - 1]) + (if last.Asked? then [last.event] else [])
  }

  ghost predicate Inv(s: State) {
    && s.position <= |s.stream|
    && (s.delivered > 0 ==> exists i :: 0 <= i < s.position && s.stream[i] == Checkpoint(s.delivered))
    && (forall i :: 0 <= i < s.position && s.stream[i].Checkpoint? ==> s.stream[i].sequence <= s.delivered)
    && (forall id :: id in s.callers && s.callers[id].Waiting? ==> s.callers[id].sequence !in s.unwritten)
    && (forall i :: 0 <= i < |s.stream| && s.stream[i].Checkpoint? ==> s.stream[i].sequence <= s.sequence)
    && (forall sequence :: sequence in s.unwritten ==> sequence <= s.sequence)
    && (forall id :: id in s.callers ==> CallerInv(s.stream, s.position, s.sequence, s.callers[id]))
    && (forall id :: id in s.callers ==> (HoldsSlot(s.callers[id]) <==> s.slot == Some(id)))
    && s.recorded == Questions(s.stream[..s.position])
    && Sound(s.recorded, s.entries)
  }

  lemma WriteKeepsInv(s: State, event: Event)
    requires Inv(s) && (event.Checkpoint? ==> event.sequence in s.unwritten)
    ensures Inv(s.(stream := s.stream + [event]))
  {
    hide Sound, Questions;
    assert (s.stream + [event])[..s.position] == s.stream[..s.position];
  }

  lemma AdvanceKeepsInv(s: State, id: nat, caller: Caller)
    requires Inv(s) && CallerInv(s.stream, s.position, s.sequence, caller)
    requires HoldsSlot(caller) ==> s.slot == None || s.slot == Some(id)
    requires caller.Waiting? ==> caller.sequence !in s.unwritten
    ensures Inv(Advance(s, id, caller))
  {
    hide CallerInv, Sound, Questions;
  }

  /** A delivered checkpoint above what a caller observed was written after the call. */
  lemma Passed(s: State, begun: nat, observed: nat)
    requires Inv(s) && Fenced(s.stream, begun, observed) && s.delivered > observed
    ensures begun <= s.position
  {
    var i :| 0 <= i < s.position && s.stream[i] == Checkpoint(s.delivered);
  }

  lemma CounterKeepsInv(s: State, sequence: nat, unwritten: set<nat>)
    requires Inv(s) && s.sequence <= sequence && forall n :: n in unwritten ==> n <= sequence
    requires forall n :: n in unwritten ==> n in s.unwritten || n > s.sequence
    ensures Inv(s.(sequence := sequence, unwritten := unwritten))
  {
    hide Fenced, Sound, Questions;
  }

  lemma NextKeepsInv(s: State, step: Step, s': State)
    requires Inv(s) && Next(s, step, s')
    ensures Inv(s')
  {
    hide Inv, Moves, Consumes;
    match step
    case Emit(event) => WriteKeepsInv(s, Asked(event));
    case Call(id) => AdvanceKeepsInv(s, id, Called(|s.stream|));
    case By(id, move) => MoveKeepsInv(s, id, move, s');
    case TaskWrites(sequence) =>
      WriteKeepsInv(s, Checkpoint(sequence));
      TaskEndKeepsInv(s.(stream := s.stream + [Checkpoint(sequence)]), sequence);
    case TaskFails(sequence) => TaskEndKeepsInv(s, sequence);
    case Deliver(entries) => DeliverKeepsInv(s, entries, s');
  }

  lemma TaskEndKeepsInv(s: State, sequence: nat)
    requires Inv(s)
    ensures Inv(s.(unwritten := s.unwritten - {sequence}))
  {
    CounterKeepsInv(s, s.sequence, s.unwritten - {sequence});
  }

  lemma CallerFacts(s: State, id: nat)
    requires Inv(s) && id in s.callers
    ensures CallerInv(s.stream, s.position, s.sequence, s.callers[id])
    ensures HoldsSlot(s.callers[id]) ==> s.slot == Some(id)
    ensures s.callers[id].Waiting? ==> s.callers[id].sequence !in s.unwritten
    ensures s.callers[id].Called? ==>
      CallerInv(s.stream, s.position, s.sequence, Queued(s.callers[id].begun, s.sequence))
  {
  }

  lemma SequencesKnown(s: State)
    requires Inv(s)
    ensures forall n :: n in s.unwritten ==> n <= s.sequence
  {
  }

  lemma IssueKeepsInv(s: State, id: nat, caller: Caller)
    requires Inv(s) && id in s.callers && caller == s.callers[id] && caller.Locked?
    ensures Inv(Advance(s, id, Writing(caller.begun, caller.observed, s.sequence + 1))
                .(sequence := s.sequence + 1, unwritten := s.unwritten + {s.sequence + 1}))
  {
    CallerFacts(s, id);
    var writing := Writing(caller.begun, caller.observed, s.sequence + 1);
    hide Inv;
    SequencesKnown(s);
    CounterKeepsInv(s, s.sequence + 1, s.unwritten + {s.sequence + 1});
    var t := s.(sequence := s.sequence + 1, unwritten := s.unwritten + {s.sequence + 1});
    AdvanceKeepsInv(t, id, writing);
  }

  lemma MoveKeepsInv(s: State, id: nat, move: Move, s': State)
    requires Inv(s) && id in s.callers && Moves(s, id, s.callers[id], move, s')
    ensures Inv(s')
  {
    hide Inv, Fenced;
    var caller := s.callers[id];
    CallerFacts(s, id);
    match move
    case Load => AdvanceKeepsInv(s, id, Queued(caller.begun, s.sequence));
    case Acquire => AdvanceKeepsInv(s, id, Locked(caller.begun, caller.observed));
    case Share =>
      Passed(s, caller.begun, caller.observed);
      AdvanceKeepsInv(s, id, Returned(caller.begun));
    case Issue => IssueKeepsInv(s, id, caller);
    case Confirm => AdvanceKeepsInv(s, id, Waiting(caller.begun, caller.observed, caller.sequence));
    case Finish =>
      Passed(s, caller.begun, caller.observed);
      AdvanceKeepsInv(s, id, Returned(caller.begun));
    case Abandon => AdvanceKeepsInv(s, id, GaveUp);
  }

  lemma DeliverKeepsInv(s: State, entries: Origins, s': State)
    requires Inv(s) && Consumes(s, entries, s')
    ensures Inv(s')
  {
    hide Recorded, Sound, Fenced;
    assert s.stream[..s.position + 1][..s.position] == s.stream[..s.position];
    match s.stream[s.position]
    case Asked(event) => RecordedSound(s.recorded, s.entries, event, entries);
    case Checkpoint(sequence) =>
  }

  ghost predicate Run(states: seq<State>, steps: seq<Step>) {
    && |states| == |steps| + 1
    && states[0] == START
    && forall i :: 0 <= i < |steps| ==> Next(states[i], steps[i], states[i + 1])
  }

  lemma {:induction false} RunKeepsInv(states: seq<State>, steps: seq<Step>)
    requires Run(states, steps)
    ensures Inv(states[|steps|])
    decreases |steps|
  {
    if steps != [] {
      hide Inv, Next;
      var n := |steps| - 1;
      assert Next(states[n], steps[n], states[n + 1]);
      RunKeepsInv(states[..n + 1], steps[..n]);
      NextKeepsInv(states[n], steps[n], states[n + 1]);
    }
  }

  lemma {:induction false} QuestionsPrefix(stream: seq<Event>, n: nat)
    requires n <= |stream|
    ensures Questions(stream[..n]) <= Questions(stream)
  {
    if n < |stream| {
      var shorter := stream[..|stream| - 1];
      QuestionsPrefix(shorter, n);
      assert shorter[..n] == stream[..n];
    } else {
      assert stream[..n] == stream;
    }
  }

  /** The fence: when a call has returned Ok, every DNS event written to the stream before the call
      began has been recorded, in order. */
  lemma Fence(states: seq<State>, steps: seq<Step>, id: nat)
    requires Run(states, steps)
    requires id in states[|steps|].callers && states[|steps|].callers[id].Returned?
    ensures var s := states[|steps|];
      s.callers[id].begun <= |s.stream| && Questions(s.stream[..s.callers[id].begun]) <= s.recorded
  {
    RunKeepsInv(states, steps);
    var s := states[|steps|];
    var begun := s.callers[id].begun;
    assert CallerInv(s.stream, s.position, s.sequence, s.callers[id]);
    QuestionsPrefix(s.stream[..s.position], begun);
    assert s.stream[..s.position][..begun] == s.stream[..begun];
  }

  lemma {:induction false} LastForExtends(early: seq<Dns>, late: seq<Dns>, question: Question)
    requires early <= late && LastFor(late, question) != LastFor(early, question)
    ensures LastFor(late, question).Some?
    ensures exists i :: |early| <= i < |late| && late[i].question == question
                     && LastFor(late, question) == Some(Origin(late[i].pid, late[i].at))
  {
    if late == early {
    } else {
      var n := |late| - 1;
      if late[n].question == question && late[n].pid != 0 {
      } else {
        assert early <= late[..n];
        LastForExtends(early, late[..n], question);
        var i :| |early| <= i < n && late[..n][i].question == question
              && LastFor(late[..n], question) == Some(Origin(late[..n][i].pid, late[..n][i].at));
        assert late[i] == late[..n][i];
      }
    }
  }

  /** What attribution rests on: after a successful `synchronize`, a lookup names the process of the
      last matching event written before the call, or of one written later; never an older one. */
  lemma AttributionIsCurrent(states: seq<State>, steps: seq<Step>, id: nat, question: Question, now: nat)
    requires Run(states, steps)
    requires id in states[|steps|].callers && states[|steps|].callers[id].Returned?
    requires Lookup(states[|steps|].entries, question, now).Some?
    ensures var s := states[|steps|];
      s.callers[id].begun <= |s.stream| &&
      var before := Questions(s.stream[..s.callers[id].begun]);
      var pid := Lookup(s.entries, question, now).value;
      || (LastFor(before, question).Some? && LastFor(before, question).value.pid == pid)
      || exists i :: |before| <= i < |s.recorded| && s.recorded[i].question == question && s.recorded[i].pid == pid
  {
    Fence(states, steps, id);
    RunKeepsInv(states, steps);
    var s := states[|steps|];
    var before := Questions(s.stream[..s.callers[id].begun]);
    if LastFor(s.recorded, question) != LastFor(before, question) {
      LastForExtends(before, s.recorded, question);
    }
  }

  lemma {:induction false} RunComplete(states: seq<State>, steps: seq<Step>)
    requires Run(states, steps) && forall i :: 0 <= i < |steps| ==> |states[i].entries| < MAX_ORIGINS
    ensures Complete(states[|steps|].recorded, states[|steps|].entries)
    decreases |steps|
  {
    if steps != [] {
      hide Complete;
      var n := |steps| - 1;
      assert Next(states[n], steps[n], states[n + 1]);
      RunComplete(states[..n + 1], steps[..n]);
      var s := states[n];
      if steps[n].Deliver? && s.stream[s.position].Asked? {
        RecordedComplete(s.recorded, s.entries, s.stream[s.position].event, states[n + 1].entries);
      }
    }
  }

  /** And attribution is made: after a successful `synchronize`, a question asked by a known process
      before the call is attributed to the last process recorded for it, for thirty seconds after it
      asked, as long as the table has never been full. */
  lemma AttributionIsMade(states: seq<State>, steps: seq<Step>, id: nat, question: Question, now: nat)
    requires Run(states, steps) && forall i :: 0 <= i < |steps| ==> |states[i].entries| < MAX_ORIGINS
    requires id in states[|steps|].callers && states[|steps|].callers[id].Returned?
    requires var s := states[|steps|];
      s.callers[id].begun <= |s.stream| ==> LastFor(Questions(s.stream[..s.callers[id].begun]), question).Some?
    ensures LastFor(states[|steps|].recorded, question).Some?
    ensures var s := states[|steps|];
      var last := LastFor(s.recorded, question).value;
      Lookup(s.entries, question, now) == if now < last.at + 30_000 then Some(last.pid) else None
  {
    hide Questions, LastFor;
    Fence(states, steps, id);
    RunKeepsInv(states, steps);
    RunComplete(states, steps);
    var s := states[|steps|];
    LaterCallers(Questions(s.stream[..s.callers[id].begun]), s.recorded, question);
    assert question in s.entries;
  }

  lemma LaterCallers(early: seq<Dns>, late: seq<Dns>, question: Question)
    requires early <= late && LastFor(early, question).Some?
    ensures LastFor(late, question).Some?
  {
    if LastFor(late, question) != LastFor(early, question) {
      LastForExtends(early, late, question);
    }
  }

  // ---------------------------------------------------------------- calls do return

  /** With the slot free and the consumer caught up, a new call comes through by a checkpoint of its
      own. */
  lemma CallCompletes(s: State, id: nat) returns (states: seq<State>, steps: seq<Step>)
    requires Inv(s) && s.slot == None && id !in s.callers && s.position == |s.stream|
    ensures |states| == |steps| + 1 && states[0] == s
    ensures forall i :: 0 <= i < |steps| ==> Next(states[i], steps[i], states[i + 1])
    ensures var t := states[|steps|];
      && id in t.callers && t.callers[id] == Returned(|s.stream|) && t.slot == None
      && t.stream == s.stream + [Checkpoint(s.sequence + 1)] && t.position == |t.stream|
      && t.entries == s.entries && t.recorded == s.recorded
  {
    hide Inv;
    var begun, number := |s.stream|, s.sequence + 1;
    DeliveredAtMost(s);
    var called := Advance(s, id, Called(begun));
    var queued := Advance(called, id, Queued(begun, s.sequence));
    var locked := CallAcquires(s, id);
    var writing := CallIssues(s, id, locked);
    var written, waiting, delivered, returned := CallReturns(s, id, writing);
    hide Next, Advance;
    states := [s, called, queued, locked, writing, written, waiting, delivered, returned];
    steps := [Call(id), By(id, Load), By(id, Acquire), By(id, Issue),
              TaskWrites(number), By(id, Confirm), Deliver(s.entries), By(id, Finish)];
  }

  lemma CallAcquires(s: State, id: nat) returns (locked: State)
    requires s.slot == None && id !in s.callers
    ensures var called := Advance(s, id, Called(|s.stream|));
      var queued := Advance(called, id, Queued(|s.stream|, s.sequence));
      && Next(s, Call(id), called) && Next(called, By(id, Load), queued) && Next(queued, By(id, Acquire), locked)
    ensures locked == s.(callers := s.callers[id := Locked(|s.stream|, s.sequence)], slot := Some(id))
  {
    locked := s.(callers := s.callers[id := Locked(|s.stream|, s.sequence)], slot := Some(id));
  }

  lemma CallIssues(s: State, id: nat, locked: State) returns (writing: State)
    requires locked == s.(callers := s.callers[id := Locked(|s.stream|, s.sequence)], slot := Some(id))
    requires s.delivered <= s.sequence
    ensures Next(locked, By(id, Issue), writing)
    ensures writing == s.(
      callers := s.callers[id := Writing(|s.stream|, s.sequence, s.sequence + 1)], slot := Some(id),
      sequence := s.sequence + 1, unwritten := s.unwritten + {s.sequence + 1})
  {
    writing := s.(
      callers := s.callers[id := Writing(|s.stream|, s.sequence, s.sequence + 1)], slot := Some(id),
      sequence := s.sequence + 1, unwritten := s.unwritten + {s.sequence + 1});
  }

  lemma CallReturns(s: State, id: nat, writing: State)
    returns (written: State, waiting: State, delivered: State, returned: State)
    requires s.position == |s.stream| && s.delivered <= s.sequence
    requires writing == s.(
      callers := s.callers[id := Writing(|s.stream|, s.sequence, s.sequence + 1)], slot := Some(id),
      sequence := s.sequence + 1, unwritten := s.unwritten + {s.sequence + 1})
    ensures Next(writing, TaskWrites(s.sequence + 1), written) && Next(written, By(id, Confirm), waiting)
    ensures Next(waiting, Deliver(s.entries), delivered) && Next(delivered, By(id, Finish), returned)
    ensures id in returned.callers && returned.callers[id] == Returned(|s.stream|) && returned.slot == None
    ensures returned.stream == s.stream + [Checkpoint(s.sequence + 1)] && returned.position == |returned.stream|
    ensures returned.entries == s.entries && returned.recorded == s.recorded
  {
    var number := s.sequence + 1;
    written := writing.(stream := s.stream + [Checkpoint(number)], unwritten := writing.unwritten - {number});
    waiting := Advance(written, id, Waiting(|s.stream|, s.sequence, number));
    delivered := waiting.(position := s.position + 1, delivered := number);
    returned := Advance(delivered, id, Returned(|s.stream|));
  }

  lemma DeliveredAtMost(s: State)
    requires Inv(s)
    ensures s.delivered <= s.sequence
  {
    if s.delivered > 0 {
      var i :| 0 <= i < s.position && s.stream[i] == Checkpoint(s.delivered);
    }
  }

  /** A caller that finds a later checkpoint delivered shares it and writes none; a caller whose own
      checkpoint has been consumed can return; a write may fail, and until it is over the caller waits
      for it. */
  lemma SharesOrReturns(s: State, id: nat)
    requires Inv(s) && id in s.callers
    ensures s.callers[id].Locked? && s.delivered > s.callers[id].observed ==>
      && Next(s, By(id, Share), Advance(s, id, Returned(s.callers[id].begun)))
      && forall s' :: !Next(s, By(id, Issue), s')
    ensures s.callers[id].Waiting? && Checkpoint(s.callers[id].sequence) in s.stream[..s.position] ==>
      Next(s, By(id, Finish), Advance(s, id, Returned(s.callers[id].begun)))
    ensures s.callers[id].Writing? && s.callers[id].sequence in s.unwritten ==>
      var sequence := s.callers[id].sequence;
      && Next(s, TaskFails(sequence), s.(unwritten := s.unwritten - {sequence}))
      && forall s' :: !Next(s, By(id, Confirm), s')
  {
  }
}
