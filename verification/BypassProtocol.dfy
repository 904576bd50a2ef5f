/** The two-phase bypass update between clients and the monitor thread: one operation lock, one
    message channel, and replies that a client may stop waiting for
    (src/windows_network_config.rs).
 */
module BypassProtocol {
  import opened Base

  /** Updates are numbered in the order in which they are sent. */
  datatype Message = Prepare(op: nat) | Commit(op: nat) | Rollback(op: nat)

  /** Where the holder of the operation lock stands; any client may take a free lock. */
  datatype Phase =
    | Free
    | Acquired
    | Waiting(op: nat)
    | Confirmed(op: nat)
    | Dropping(op: nat)
    | Sent

  datatype Effect = Begin(op: nat) | Decide(op: nat, committed: bool)

  /** `sent` is everything ever put into the channel, `consumed` how much of it the worker took.
      `log` is what the worker did with updates. */
  datatype State = State(
    phase: Phase,
    sent: seq<Message>,
    consumed: nat,
    closed: set<nat>,
    answers: map<nat, bool>,
    working: Option<nat>,
    pending: Option<nat>,
    log: seq<Effect>,
    stopped: bool)

  const START: State := State(Free, [], 0, {}, map[], None, None, [], false)

  datatype Step =
    | Acquire
    | GiveUp
    | SendPrepare
    | TakeReply
    | StopWaiting
    | SendCommit
    | SendRollback
    | Release
    | TakePrepare(ready: bool)
    | Finish(ok: bool)
    | TakeDecision
    | StopWorker

  function Send(s: State, message: Message): State {
    if s.stopped then s else s.(sent := s.sent + [message])
  }

  // ---------------------------------------------------------------- the client's steps

  ghost predicate ClientStep(s: State, s': State, step: Step) {
    match step
    case Acquire => s.phase.Free? && s' == s.(phase := Acquired)
    case GiveUp => s.phase.Acquired? && s' == s.(phase := Free)
    // A closed channel refuses the request; the guard is dropped.
    case SendPrepare =>
      && s.phase.Acquired?
      && s' == if s.stopped then s.(phase := Sent)
               else Send(s, Prepare(|s.sent| / 2)).(phase := Waiting(|s.sent| / 2))
    case TakeReply =>
      && s.phase.Waiting? && s.phase.op in s.answers
      && s' == s.(phase := if s.answers[s.phase.op] then Confirmed(s.phase.op) else Dropping(s.phase.op))
    // A timeout, a cancellation, or the worker's end: the reply channel is closed.
    case StopWaiting =>
      && s.phase.Waiting?
      && s' == s.(phase := Dropping(s.phase.op), closed := s.closed + {s.phase.op})
    // If the channel refuses the commit, the guard is dropped uncommitted.
    case SendCommit =>
      && s.phase.Confirmed?
      && s' == if s.stopped then s.(phase := Dropping(s.phase.op)) else Send(s, Commit(s.phase.op)).(phase := Sent)
    // Dropping the guard: the rollback goes out before the lock is released.
    case SendRollback =>
      && (s.phase.Dropping? || s.phase.Confirmed?)
      && s' == Send(s, Rollback(s.phase.op)).(phase := Sent)
    case Release => s.phase.Sent? && s' == s.(phase := Free)
    case _ => false
  }

  // ---------------------------------------------------------------- the worker's steps

  ghost predicate WorkerStep(s: State, s': State, step: Step) {
    !s.stopped &&
    match step
    // A request whose client is gone is skipped. Otherwise the update begins, unless rows of an
    // earlier one are still to be rolled back (not `ready`).
    case TakePrepare(ready) =>
      && s.working.None? && s.consumed < |s.sent| && s.sent[s.consumed].Prepare?
      && (var op := s.sent[s.consumed].op;
          s' == if op in s.closed then s.(consumed := s.consumed + 1)
                else if ready then s.(consumed := s.consumed + 1, working := Some(op), pending := Some(op), log := s.log + [Begin(op)])
                else s.(consumed := s.consumed + 1, working := Some(op)))
    case Finish(ok) =>
      && s.working.Some?
      && s' == s.(working := None, answers := s.answers[s.working.value := ok && s.pending == s.working])
    case TakeDecision =>
      && s.working.None? && s.consumed < |s.sent| && !s.sent[s.consumed].Prepare?
      && s' == s.(consumed := s.consumed + 1, pending := None,
                  log := if s.pending.None? then s.log
                         else s.log + [Decide(s.pending.value, s.sent[s.consumed].Commit?)])
    case StopWorker => s' == s.(stopped := true)
    case _ => false
  }

  ghost predicate Next(s: State, s': State, step: Step) {
    ClientStep(s, s', step) || WorkerStep(s, s', step)
  }

  // ---------------------------------------------------------------- invariants

  /** Requests and decisions alternate, and a decision is for the request before it. */
  ghost predicate Paired(sent: seq<Message>) {
    forall i :: 0 <= i < |sent| ==> sent[i].op == i / 2 && (sent[i].Prepare? <==> i % 2 == 0)
  }

  predicate Undecided(phase: Phase) {
    phase.Waiting? || phase.Confirmed? || phase.Dropping?
  }

  /** A request without its decision belongs to the holder of the lock. */
  ghost predicate Held(s: State) {
    && (Undecided(s.phase) ==> |s.sent| % 2 == 1 && s.phase.op == |s.sent| / 2)
    && (!s.stopped && !Undecided(s.phase) ==> |s.sent| % 2 == 0)
  }

  /** The worker's update is that of the request it took last. */
  ghost predicate OneUpdate(s: State) {
    && s.consumed <= |s.sent|
    && (s.working.Some? ==> s.consumed % 2 == 1 && s.working.value == s.consumed / 2)
    && (s.pending.Some? ==> s.consumed % 2 == 1 && s.pending.value == s.consumed / 2)
  }

  /** A positive answer means that the update is there, until its decision. */
  ghost predicate Answered(s: State) {
    && (forall op :: op in s.answers ==> 2 * op < s.consumed)
    && (forall op :: op in s.answers && s.answers[op] && s.consumed == 2 * op + 1 ==> s.pending == Some(op) && s.working.None?)
    && (s.phase.Confirmed? ==> s.phase.op in s.answers && s.answers[s.phase.op])
    && (forall i :: 0 <= i < |s.sent| && s.sent[i].Commit? ==> s.sent[i].op in s.answers && s.answers[s.sent[i].op])
    && (s.working.Some? ==> s.working.value !in s.answers)
  }

  /** Every update that began is decided, once, before the next begins; only answered updates are
      committed. */
  ghost predicate Alternates(log: seq<Effect>) {
    && (forall i :: 0 <= i < |log| ==> (log[i].Begin? <==> i % 2 == 0))
    && (forall i :: 0 < i < |log| && i % 2 == 1 ==> log[i].op == log[i - 1].op)
    && (forall i, j :: 0 <= i < j < |log| && log[i].Begin? && log[j].Begin? ==> log[i].op < log[j].op)
  }

  ghost predicate Logged(s: State) {
    && Alternates(s.log)
    && (|s.log| % 2 == 1 <==> s.pending.Some?)
    && (s.pending.Some? ==> s.log[|s.log| - 1] == Begin(s.pending.value))
    && (forall i :: 0 <= i < |s.log| ==> 2 * s.log[i].op < s.consumed)
    && (forall i :: 0 <= i < |s.log| && s.log[i].Decide? && s.log[i].committed ==>
          s.log[i].op in s.answers && s.answers[s.log[i].op])
  }

  ghost predicate Inv(s: State) {
    Paired(s.sent) && Held(s) && OneUpdate(s) && Answered(s) && Logged(s)
  }

  lemma StartKeepsInv()
    ensures Inv(START)
  {
  }

  lemma PairedSend(sent: seq<Message>, message: Message)
    requires Paired(sent) && message.op == |sent| / 2 && (message.Prepare? <==> |sent| % 2 == 0)
    ensures Paired(sent + [message])
  {
  }

  lemma ClientKeepsInv(s: State, s': State, step: Step)
    requires Inv(s) && ClientStep(s, s', step)
    ensures Inv(s')
  {
    hide Paired, Held, OneUpdate, Answered, Logged, ClientStep;
    ClientKeepsPairing(s, s', step);
    ClientKeepsAnswers(s, s', step);
    ClientKeepsLog(s, s', step);
  }

  lemma ClientKeepsLog(s: State, s': State, step: Step)
    requires Logged(s) && ClientStep(s, s', step)
    ensures Logged(s')
  {
    hide Alternates;
  }

  lemma ClientKeepsPairing(s: State, s': State, step: Step)
    requires Paired(s.sent) && Held(s) && OneUpdate(s) && ClientStep(s, s', step)
    ensures Paired(s'.sent) && Held(s') && OneUpdate(s')
  {
    hide Paired;
    if !s.stopped {
      match step
      case SendPrepare => PairedSend(s.sent, Prepare(|s.sent| / 2));
      case SendCommit => PairedSend(s.sent, Commit(s.phase.op));
      case SendRollback => PairedSend(s.sent, Rollback(s.phase.op));
      case _ =>
    }
  }

  lemma ClientKeepsAnswers(s: State, s': State, step: Step)
    requires Answered(s) && ClientStep(s, s', step)
    ensures Answered(s')
  {
  }

  lemma LogBegin(log: seq<Effect>, op: nat, consumed: nat)
    requires Alternates(log) && |log| % 2 == 0 && consumed <= 2 * op
    requires forall i :: 0 <= i < |log| ==> 2 * log[i].op < consumed
    ensures Alternates(log + [Begin(op)])
  {
  }

  lemma LogDecide(log: seq<Effect>, op: nat, committed: bool)
    requires Alternates(log) && |log| % 2 == 1 && log[|log| - 1].op == op
    ensures Alternates(log + [Decide(op, committed)])
  {
  }

  lemma WorkerKeepsInv(s: State, s': State, step: Step)
    requires Inv(s) && WorkerStep(s, s', step)
    ensures Inv(s')
  {
    assert OneUpdate(s') && Held(s') by { hide Alternates, Answered, Logged; }
    WorkerKeepsAnswers(s, s', step);
    match step
    case TakePrepare(ready) => PrepareKeepsLog(s, s', ready);
    case TakeDecision => DecisionKeepsLog(s, s');
    case Finish(ok) => FinishKeepsLog(s, s', ok);
    case StopWorker =>
  }

  lemma WorkerKeepsAnswers(s: State, s': State, step: Step)
    requires Paired(s.sent) && OneUpdate(s) && Answered(s) && WorkerStep(s, s', step)
    ensures Answered(s')
  {
  }

  lemma PrepareKeepsLog(s: State, s': State, ready: bool)
    requires Paired(s.sent) && OneUpdate(s) && Logged(s) && WorkerStep(s, s', TakePrepare(ready))
    ensures Logged(s')
  {
    hide Alternates;
    LogBegin(s.log, s.sent[s.consumed].op, s.consumed);
  }

  lemma DecisionKeepsLog(s: State, s': State)
    requires Paired(s.sent) && OneUpdate(s) && Answered(s) && Logged(s) && WorkerStep(s, s', TakeDecision)
    ensures Logged(s')
  {
    hide Alternates;
    if s.pending.Some? {
      LogDecide(s.log, s.pending.value, s.sent[s.consumed].Commit?);
      assert s.pending.value == s.sent[s.consumed].op;
    }
  }

  lemma FinishKeepsLog(s: State, s': State, ok: bool)
    requires Answered(s) && Logged(s) && WorkerStep(s, s', Finish(ok))
    ensures Logged(s')
  {
    hide Alternates;
  }

  // ---------------------------------------------------------------- whole runs

  ghost predicate Run(states: seq<State>, steps: seq<Step>) {
    && |states| == |steps| + 1
    && states[0] == START
    && forall i :: 0 <= i < |steps| ==> Next(states[i], states[i + 1], steps[i])
  }

  lemma {:induction false} RunKeepsInv(states: seq<State>, steps: seq<Step>, n: nat)
    requires Run(states, steps) && n < |states|
    ensures Inv(states[n])
  {
    hide Inv, ClientStep, WorkerStep;
    if n == 0 {
      StartKeepsInv();
    } else {
      RunKeepsInv(states, steps, n - 1);
      if ClientStep(states[n - 1], states[n], steps[n - 1]) {
        ClientKeepsInv(states[n - 1], states[n], steps[n - 1]);
      } else {
        WorkerKeepsInv(states[n - 1], states[n], steps[n - 1]);
      }
    }
  }

  /** Over all interleavings: the worker begins an update only after the previous one is decided,
      decides each at most once, and commits only updates it has confirmed. */
  lemma UpdatesDoNotOverlap(states: seq<State>, steps: seq<Step>, n: nat)
    requires Run(states, steps) && n < |states|
    ensures Alternates(states[n].log)
    ensures forall i :: 0 <= i < |states[n].log| && states[n].log[i].Decide? && states[n].log[i].committed ==>
      states[n].log[i].op in states[n].answers && states[n].answers[states[n].log[i].op]
  {
    RunKeepsInv(states, steps, n);
  }

  /** A commit always finds the update it is for. */
  lemma CommitFindsItsUpdate(states: seq<State>, steps: seq<Step>, n: nat)
    requires Run(states, steps) && n < |steps| && steps[n].TakeDecision?
    ensures var s := states[n];
      s.consumed < |s.sent| && s.sent[s.consumed].Commit? ==>
        && s.pending == Some(s.sent[s.consumed].op)
        && states[n + 1].log == s.log + [Decide(s.sent[s.consumed].op, true)]
  {
    RunKeepsInv(states, steps, n);
    assert Next(states[n], states[n + 1], steps[n]);
  }

  /** Whenever the lock is free and the worker runs, every request sent has its decision sent; and
      once the worker has caught up, no update is provisional. */
  lemma NothingLeftOpen(states: seq<State>, steps: seq<Step>, n: nat)
    requires Run(states, steps) && n < |states|
    requires states[n].phase.Free? && !states[n].stopped
    ensures |states[n].sent| % 2 == 0
    ensures states[n].consumed == |states[n].sent| ==>
      states[n].pending.None? && |states[n].log| % 2 == 0
  {
    RunKeepsInv(states, steps, n);
  }

  // ---------------------------------------------------------------- updates do complete

  /** Nobody holds the lock, and the worker runs and has caught up. */
  ghost predicate Quiescent(s: State) {
    s.phase.Free? && !s.stopped && s.working.None? && s.consumed == |s.sent| && |s.sent| / 2 !in s.closed
  }

  /** A path of steps from one state to another. */
  ghost predicate Path(states: seq<State>, steps: seq<Step>) {
    |states| == |steps| + 1 && forall i :: 0 <= i < |steps| ==> Next(states[i], states[i + 1], steps[i])
  }

  /** A request that the worker takes while its client waits begins its update. */
  lemma UpdateBegins(s: State) returns (t: State, states: seq<State>, steps: seq<Step>)
    requires Inv(s) && Quiescent(s)
    ensures var op := |s.sent| / 2;
      t == s.(phase := Waiting(op), sent := s.sent + [Prepare(op)], consumed := s.consumed + 1,
              working := Some(op), pending := Some(op), log := s.log + [Begin(op)])
    ensures steps == [Acquire, SendPrepare, TakePrepare(true)] && Path(states, steps) && states[0] == s && states[3] == t
  {
    var op := |s.sent| / 2;
    var acquired := s.(phase := Acquired);
    var sent := s.(phase := Waiting(op), sent := s.sent + [Prepare(op)]);
    t := sent.(consumed := s.consumed + 1, working := Some(op), pending := Some(op), log := s.log + [Begin(op)]);
    states, steps := [s, acquired, sent, t], [Acquire, SendPrepare, TakePrepare(true)];
  }

  /** An update that the worker confirms and its client commits is committed. */
  lemma UpdateCommits(s: State) returns (t: State, states: seq<State>, steps: seq<Step>)
    requires Inv(s) && Quiescent(s)
    ensures Path(states, steps) && states[0] == s && states[|steps|] == t
    ensures var op := |s.sent| / 2; t.log == s.log + [Begin(op), Decide(op, true)]
    ensures t.phase == Free && t.pending == None && t.consumed == |t.sent|
  {
    hide Inv;
    var begun, first, begin := UpdateBegins(s);
    var op := |s.sent| / 2;
    var finished := begun.(working := None, answers := s.answers[op := true]);
    var confirmed := finished.(phase := Confirmed(op));
    var committed := confirmed.(phase := Sent, sent := begun.sent + [Commit(op)]);
    var decided := committed.(consumed := begun.consumed + 1, pending := None, log := begun.log + [Decide(op, true)]);
    t := decided.(phase := Free);
    states := first + [finished, confirmed, committed, decided, t];
    steps := begin + [Finish(true), TakeReply, SendCommit, TakeDecision, Release];
    assert s.log + [Begin(op)] + [Decide(op, true)] == s.log + [Begin(op), Decide(op, true)];
  }

  /** An update whose client stops waiting is rolled back. */
  lemma UpdateIsUndone(s: State) returns (t: State, states: seq<State>, steps: seq<Step>)
    requires Inv(s) && Quiescent(s)
    ensures Path(states, steps) && states[0] == s && states[|steps|] == t
    ensures var op := |s.sent| / 2; t.log == s.log + [Begin(op), Decide(op, false)] && op in t.closed
    ensures t.phase == Free && t.pending == None && t.consumed == |t.sent|
  {
    hide Inv;
    var begun, first, begin := UpdateBegins(s);
    var op := |s.sent| / 2;
    var dropping := begun.(phase := Dropping(op), closed := s.closed + {op});
    var finished := dropping.(working := None, answers := s.answers[op := true]);
    var rolled := finished.(phase := Sent, sent := begun.sent + [Rollback(op)]);
    var decided := rolled.(consumed := begun.consumed + 1, pending := None, log := begun.log + [Decide(op, false)]);
    t := decided.(phase := Free);
    states := first + [dropping, finished, rolled, decided, t];
    steps := begin + [StopWaiting, Finish(true), SendRollback, TakeDecision, Release];
    assert s.log + [Begin(op)] + [Decide(op, false)] == s.log + [Begin(op), Decide(op, false)];
  }

  /** A request whose client is gone begins nothing and gets no answer; one that must wait for an
      earlier rollback begins nothing either and is refused; and a worker that has stopped does nothing
      and is sent nothing. */
  lemma NothingBegun(s: State, s': State, step: Step)
    requires Next(s, s', step)
    ensures step.TakePrepare? && s.sent[s.consumed].op in s.closed ==> s' == s.(consumed := s.consumed + 1)
    ensures step == TakePrepare(false) ==> s'.log == s.log && s'.pending == s.pending
    ensures step.Finish? && s.pending != s.working ==> s'.answers == s.answers[s.working.value := false]
    ensures step.StopWorker? ==> s'.stopped
    ensures s.stopped ==> s'.stopped && s'.sent == s.sent && s'.log == s.log && s'.consumed == s.consumed
    ensures step.SendCommit? && s.stopped ==> s'.phase == Dropping(s.phase.op)
  {
  }
}
