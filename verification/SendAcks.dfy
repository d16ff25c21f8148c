/**
 What was answered gets persisted: every batch with offsets is staged, and once it
 is answered its key is flushed (common/http/src/client.rs:79-92 and 125-131).
 */
module SendAcks {
  import opened Prelude
  import opened Spans
  import opened OffsetMaps
  import opened Codec
  import opened SendProtocol
  import opened SendFrames
  import opened SendDelivery
  import OffsetActor
  import OffsetRuns

  // ----- the queue of the actor

  /** What a step sends to the actor. */
  function SentBy(c: Config, s: State, step: Step): seq<Message>
    requires Enabled(c, s, step)
  {
    match step
    case Stage(t) =>
      var b := s.tasks[t].batch;
      if c.stateful && b.offsets.Some? then [Staging(t, b.offsets.value)] else []
    case RequestFlush(t) => if c.stateful then [Other(OffsetActor.Flush(s.tasks[t].pc.key))] else []
    case Control(e) => [Other(e)]
    case _ => []
  }

  lemma QueueStep(c: Config, s: State, step: Step)
    requires Enabled(c, s, step)
    ensures Apply(c, s, step).queue == (if step.Act? then s.queue[1..] else s.queue) + SentBy(c, s, step)
  {
    if OfConsumer(step) { ReaderStep(c, s, step); }
    else if OfSpill(step) { RetryStep(c, s, step); }
    else { QueueStepOutside(c, s, step); }
  }

  lemma QueueStepOutside(c: Config, s: State, step: Step)
    requires Enabled(c, s, step) && !OfConsumer(step) && !OfSpill(step)
    ensures Apply(c, s, step).queue == (if step.Act? then s.queue[1..] else s.queue) + SentBy(c, s, step)
  {
  }

  ghost function AllSent(c: Config, states: seq<State>, steps: seq<Step>, n: nat): seq<Message>
    requires IsRun(c, states, steps) && n <= |steps|
  {
    if n == 0 then [] else AllSent(c, states, steps, n - 1) + SentBy(c, states[n - 1], steps[n - 1])
  }

  ghost function AllTaken(c: Config, states: seq<State>, steps: seq<Step>, n: nat): seq<Message>
    requires IsRun(c, states, steps) && n <= |steps|
  {
    if n == 0 then []
    else AllTaken(c, states, steps, n - 1) + if steps[n - 1].Act? then [states[n - 1].queue[0]] else []
  }

  /** The actor takes every message that is sent, in the order in which they are sent. */
  lemma {:induction false} QueueIsFifo(c: Config, states: seq<State>, steps: seq<Step>, n: nat)
    requires IsRun(c, states, steps) && n <= |steps|
    ensures AllTaken(c, states, steps, n) + states[n].queue == AllSent(c, states, steps, n)
  {
    if n > 0 {
      var s, step := states[n - 1], steps[n - 1];
      var taken, sent := AllTaken(c, states, steps, n - 1), SentBy(c, s, step);
      QueueIsFifo(c, states, steps, n - 1);
      QueueStep(c, s, step);
      FirstTaken(taken, s.queue, sent, step.Act?);
    }
  }

  lemma FirstTaken(taken: seq<Message>, queue: seq<Message>, sent: seq<Message>, takes: bool)
    requires takes ==> queue != []
    ensures (taken + if takes then [queue[0]] else []) + ((if takes then queue[1..] else queue) + sent) == taken + queue + sent
  {
  }

  /** Within the protocol the actor performs one of its own runs. */
  lemma {:induction false} ActorRuns(c: Config, states: seq<State>, steps: seq<Step>, n: nat)
    returns (actors: seq<OffsetActor.State>, inputs: seq<OffsetActor.Input>)
    requires IsRun(c, states, steps) && n <= |steps|
    ensures OffsetRuns.IsRun(actors, inputs) && actors[0] == states[0].actor && actors[|inputs|] == states[n].actor
  {
    if n == 0 {
      actors, inputs := [states[0].actor], [];
      assert actors[0] == OffsetActor.Initial(states[0].actor.db);
    } else {
      var s, step := states[n - 1], steps[n - 1];
      actors, inputs := ActorRuns(c, states, steps, n - 1);
      ActorStep(c, s, step);
      if step.Act? {
        var input := ActorInput(s.queue[0], step.handleOk, step.writeOk);
        actors, inputs := OneMoreInput(actors, inputs, input);
      }
    }
  }

  lemma OneMoreInput(actors0: seq<OffsetActor.State>, inputs0: seq<OffsetActor.Input>, input: OffsetActor.Input)
    returns (actors: seq<OffsetActor.State>, inputs: seq<OffsetActor.Input>)
    requires OffsetRuns.IsRun(actors0, inputs0)
    ensures OffsetRuns.IsRun(actors, inputs) && |inputs| == |inputs0| + 1 && actors[0] == actors0[0]
    ensures actors[|inputs|] == OffsetActor.Step(actors0[|inputs0|], input)
  {
    actors, inputs := actors0 + [OffsetActor.Step(actors0[|inputs0|], input)], inputs0 + [input];
    forall i | 0 <= i < |inputs| ensures actors[i + 1] == OffsetActor.Step(actors[i], inputs[i]) {
      if i < |inputs0| { assert actors0[i + 1] == OffsetActor.Step(actors0[i], inputs0[i]); }
    }
  }

  // ----- every batch with offsets is staged

  /** At step `a` the actor takes the update of `t`. */
  predicate TakesUpdate(s: State, step: Step, t: TaskId, offsets: Offsets) {
    step.Act? && s.queue != [] && s.queue[0] == Staging(t, offsets)
  }

  /** The key that the sender is given for its update, or none if the database cannot be reached. */
  function KeyGiven(s: State, step: Step): Option<Key>
    requires step.Act?
  {
    if step.handleOk then Some(s.actor.nextKey) else None
  }

  /** Where a sender with offsets stands towards the actor. */
  ghost predicate HasStaged(states: seq<State>, steps: seq<Step>, n: nat, t: TaskId)
    requires n <= |steps| && n < |states| && t in states[n].tasks && states[n].tasks[t].batch.offsets.Some?
  {
    var task := states[n].tasks[t];
    var o := task.batch.offsets.value;
    && (task.pc.AwaitingKey? ==> Staging(t, o) in states[n].queue)
    && (task.pc.Sending? || task.pc.Answered? ==>
          exists a :: 0 <= a < n && TakesUpdate(states[a], steps[a], t, o) && task.pc.key == KeyGiven(states[a], steps[a]))
  }

  /**
   In a client with offset handles a sender with offsets does stage them: while it
   waits for its key its update is queued, and it sends its batch only after the
   actor has taken the update, with the key it was given for it.
   */
  lemma {:induction false} OffsetsAreStaged(c: Config, states: seq<State>, steps: seq<Step>, n: nat, t: TaskId)
    requires IsRun(c, states, steps) && n <= |steps| && c.stateful
    requires t in states[n].tasks && states[n].tasks[t].batch.offsets.Some?
    ensures HasStaged(states, steps, n, t)
  {
    if n > 0 {
      var s, step, s' := states[n - 1], steps[n - 1], states[n];
      RunIsTidy(c, states, steps, n - 1);
      if t in s.tasks && s.tasks[t].batch == s'.tasks[t].batch { OffsetsAreStaged(c, states, steps, n - 1, t); }
      StagingStep(c, s, step, s', t);
      if TakesUpdate(s, step, t, s'.tasks[t].batch.offsets.value) { assert 0 <= n - 1 < n; }
    }
  }

  /** One step of a sender with offsets, seen from its update. */
  lemma StagingStep(c: Config, s: State, step: Step, s': State, t: TaskId)
    requires Tidy(s) && c.stateful && Enabled(c, s, step) && s' == Apply(c, s, step)
    requires t in s'.tasks && s'.tasks[t].batch.offsets.Some?
    ensures var o, pc := s'.tasks[t].batch.offsets.value, s'.tasks[t].pc;
            && (pc.AwaitingKey? && !(t in s.tasks && s.tasks[t] == s'.tasks[t] && !TakesUpdate(s, step, t, o)) ==> Staging(t, o) in s'.queue)
            && (pc.AwaitingKey? && t in s.tasks && s.tasks[t] == s'.tasks[t] && Staging(t, o) in s.queue ==> Staging(t, o) in s'.queue)
            && (pc.Sending? || pc.Answered? ==>
                  || (TakesUpdate(s, step, t, o) && pc.key == KeyGiven(s, step))
                  || (t in s.tasks && s.tasks[t].batch == s'.tasks[t].batch && (s.tasks[t].pc.Sending? || s.tasks[t].pc.Answered?)
                      && s.tasks[t].pc.key == pc.key))
  {
    OneTaskMoves(c, s, step);
    QueueStep(c, s, step);
    if Moves(s, step) == Some(t) { StagingMove(c, s, step, s', t); }
  }

  lemma StagingMove(c: Config, s: State, step: Step, s': State, t: TaskId)
    requires Tidy(s) && c.stateful && Enabled(c, s, step) && s' == Apply(c, s, step) && Moves(s, step) == Some(t)
    requires t in s'.tasks && s'.tasks[t].batch.offsets.Some?
    ensures var o, pc := s'.tasks[t].batch.offsets.value, s'.tasks[t].pc;
            && (pc.AwaitingKey? ==> Staging(t, o) in s'.queue)
            && (pc.Sending? || pc.Answered? ==>
                  || (TakesUpdate(s, step, t, o) && pc.key == KeyGiven(s, step))
                  || (t in s.tasks && s.tasks[t].batch == s'.tasks[t].batch && (s.tasks[t].pc.Sending? || s.tasks[t].pc.Answered?)
                      && s.tasks[t].pc.key == pc.key))
  {
    if OfSpill(step) { RetryStep(c, s, step); }
    else if step.Stage? { assert s'.queue[|s.queue|] == Staging(t, s.tasks[t].batch.offsets.value); }
  }

  // ----- a batch is kept for a retry, or its sender is done, only after an answer

  predicate InRetry(pc: Pc) { pc.Spilling? || pc.Written? || pc.Reserving? || pc.Swapping? || pc.Renaming? }

  /** The answer that brings a sender where it stands. */
  predicate Answers(step: Step, t: TaskId, pc: Pc) {
    || (step == AnswerSent(t) && (pc.Answered? || pc.Finished?))
    || (step == AnswerRetry(t) && (InRetry(pc) || pc.Finished?))
    || (step == AnswerRefused(t) && pc.Finished?)
  }

  predicate Asking(pc: Pc) { pc.Starting? || pc.AwaitingKey? || pc.Sending? }

  /** Every sender, also one that was handed a batch from the retry directory, asks first. */
  lemma {:induction false} AnsweredFirst(c: Config, states: seq<State>, steps: seq<Step>, n: nat, t: TaskId)
    requires IsRun(c, states, steps) && n <= |steps| && t in states[n].tasks
    ensures Asking(states[n].tasks[t].pc) || exists i :: 0 <= i < n && Answers(steps[i], t, states[n].tasks[t].pc)
  {
    if n > 0 && !Asking(states[n].tasks[t].pc) {
      RunIsTidy(c, states, steps, n - 1);
      AnswerStep(c, states[n - 1], steps[n - 1], states[n], t);
      if Answers(steps[n - 1], t, states[n].tasks[t].pc) {
        assert 0 <= n - 1 < n;
      } else {
        AnsweredFirst(c, states, steps, n - 1, t);
        var i :| 0 <= i < n - 1 && Answers(steps[i], t, states[n - 1].tasks[t].pc);
        assert Answers(steps[i], t, states[n].tasks[t].pc);
      }
    }
  }

  lemma AnswerStep(c: Config, s: State, step: Step, s': State, t: TaskId)
    requires Tidy(s) && Enabled(c, s, step) && s' == Apply(c, s, step)
    requires t in s'.tasks && !Asking(s'.tasks[t].pc)
    ensures Answers(step, t, s'.tasks[t].pc)
            || (t in s.tasks && !Asking(s.tasks[t].pc)
                && forall before :: Answers(before, t, s.tasks[t].pc) ==> Answers(before, t, s'.tasks[t].pc))
  {
    OneTaskMoves(c, s, step);
    if Moves(s, step) == Some(t) {
      if OfSpill(step) { RetryStep(c, s, step); } else { AnswerStepOutside(c, s, step, s', t); }
    }
  }

  lemma AnswerStepOutside(c: Config, s: State, step: Step, s': State, t: TaskId)
    requires Tidy(s) && Enabled(c, s, step) && s' == Apply(c, s, step) && Moves(s, step) == Some(t) && !OfSpill(step)
    requires t in s'.tasks && !Asking(s'.tasks[t].pc)
    ensures Answers(step, t, s'.tasks[t].pc)
            || (t in s.tasks && s.tasks[t].pc.Answered? && s'.tasks[t].pc.Finished?)
  {
  }

  // ----- a key is in one place at a time

  function KeyOf(pc: Pc): Option<Key> { if pc.Sending? || pc.Answered? then pc.key else None }

  function FlushKey(m: Message): Option<Key> { if m.Other? && m.event.Flush? then m.event.key else None }

  ghost predicate KeysUnique(s: State) {
    && (forall t, u :: t in s.tasks && u in s.tasks && KeyOf(s.tasks[t].pc).Some? && KeyOf(s.tasks[t].pc) == KeyOf(s.tasks[u].pc) ==> t == u)
    && (forall i, j :: 0 <= i < j < |s.queue| && FlushKey(s.queue[i]).Some? ==> FlushKey(s.queue[i]) != FlushKey(s.queue[j]))
    && (forall t, i :: t in s.tasks && KeyOf(s.tasks[t].pc).Some? && 0 <= i < |s.queue| ==> KeyOf(s.tasks[t].pc) != FlushKey(s.queue[i]))
    && (forall t :: t in s.tasks && KeyOf(s.tasks[t].pc).Some? ==> KeyOf(s.tasks[t].pc).value < s.actor.nextKey)
    && (forall i :: 0 <= i < |s.queue| && FlushKey(s.queue[i]).Some? ==> FlushKey(s.queue[i]).value < s.actor.nextKey)
  }

  /** A sender holds the key, or its flush is queued. */
  ghost predicate Bears(s: State, k: Key) {
    || (exists t :: t in s.tasks && KeyOf(s.tasks[t].pc) == Some(k))
    || (exists i :: 0 <= i < |s.queue| && FlushKey(s.queue[i]) == Some(k))
  }

  /** Nobody has a key now that it did not have before, and no flush is new in the queue. */
  ghost predicate NoNewKeys(s: State, s': State) {
    && (forall t :: t in s'.tasks && KeyOf(s'.tasks[t].pc).Some? ==> t in s.tasks && KeyOf(s.tasks[t].pc) == KeyOf(s'.tasks[t].pc))
    && |s'.queue| >= |s.queue| && (forall i :: 0 <= i < |s.queue| ==> s'.queue[i] == s.queue[i])
    && (forall i :: |s.queue| <= i < |s'.queue| ==> FlushKey(s'.queue[i]) == None)
    && s'.actor == s.actor
  }

  lemma NoNewKeysUnique(s: State, s': State)
    requires KeysUnique(s) && NoNewKeys(s, s')
    ensures KeysUnique(s') && forall k: Key :: Bears(s', k) ==> Bears(s, k)
  {
  }

  /** All steps but the actor's and the request of a flush. */
  lemma NoNewKeysStep(c: Config, s: State, step: Step)
    requires Enabled(c, s, step) && !step.Act? && !step.RequestFlush?
    ensures NoNewKeys(s, Apply(c, s, step))
  {
    if OfConsumer(step) { ReaderStep(c, s, step); }
    else if OfSpill(step) { RetryStep(c, s, step); }
    else { NoNewKeysOutside(c, s, step); }
  }

  lemma NoNewKeysOutside(c: Config, s: State, step: Step)
    requires Enabled(c, s, step) && !OfConsumer(step) && !OfSpill(step) && !step.Act? && !step.RequestFlush?
    ensures NoNewKeys(s, Apply(c, s, step))
  {
  }

  /** The sender's key goes over into the queue. */
  lemma FlushMovesKey(c: Config, s: State, step: Step, s': State)
    requires KeysUnique(s) && Enabled(c, s, step) && step.RequestFlush? && s' == Apply(c, s, step)
    ensures KeysUnique(s') && s'.actor == s.actor && forall k: Key :: Bears(s', k) ==> Bears(s, k)
  {
    var t := step.t;
    var key := s.tasks[t].pc.key;
    assert s'.tasks == s.tasks[t := s.tasks[t].(pc := Finished)] && s'.actor == s.actor;
    assert s'.queue == if c.stateful then s.queue + [Other(OffsetActor.Flush(key))] else s.queue;
    if c.stateful {
      KeyQueued(s, s', t);
      forall k: Key | Bears(s', k) ensures Bears(s, k) { KeyWasThere(s, s', t, k); }
    } else {
      NoNewKeysUnique(s, s');
    }
  }

  /** `t` is done, and its key, if it has one, is in the last message. */
  ghost predicate KeyHandedOver(s: State, s': State, t: TaskId) {
    && t in s.tasks && s'.actor == s.actor
    && s'.tasks == s.tasks[t := s.tasks[t].(pc := Finished)]
    && s'.queue == s.queue + [Other(OffsetActor.Flush(KeyOf(s.tasks[t].pc)))]
  }

  lemma KeyQueued(s: State, s': State, t: TaskId)
    requires KeysUnique(s) && KeyHandedOver(s, s', t)
    ensures KeysUnique(s')
  {
    assert KeyOf(s'.tasks[t].pc) == None;
    assert forall u :: u in s'.tasks && u != t ==> s'.tasks[u] == s.tasks[u];
  }

  lemma KeyWasThere(s: State, s': State, t: TaskId, k: Key)
    requires KeyHandedOver(s, s', t) && Bears(s', k)
    ensures Bears(s, k)
  {
    assert KeyOf(s'.tasks[t].pc) == None;
    if i :| 0 <= i < |s'.queue| && FlushKey(s'.queue[i]) == Some(k) {
      if i < |s.queue| { assert FlushKey(s.queue[i]) == Some(k); } else { assert KeyOf(s.tasks[t].pc) == Some(k); }
    }
  }

  /** The actor takes a key out of the queue, or hands out one that nobody has. */
  lemma ActKeys(c: Config, s: State, step: Step, s': State)
    requires KeysUnique(s) && Tidy(s) && Enabled(c, s, step) && step.Act? && s' == Apply(c, s, step)
    ensures KeysUnique(s')
    ensures forall k: Key :: k < s.actor.nextKey && Bears(s', k) ==> Bears(s, k) && FlushKey(s.queue[0]) != Some(k)
  {
    var m := s.queue[0];
    assert s'.queue == s.queue[1..];
    PendingAfter(s.actor, ActorInput(m, step.handleOk, step.writeOk));
    assert s'.actor == OffsetActor.Step(s.actor, ActorInput(m, step.handleOk, step.writeOk));
    if m.Other? {
      assert s'.tasks == s.tasks;
      ActOnFlush(s, s');
    } else {
      assert s'.tasks == s.tasks[m.task := s.tasks[m.task].(pc := Sending(KeyGiven(s, step)))];
      ActOnUpdate(s, s', m.task, KeyGiven(s, step));
    }
  }

  lemma ActOnFlush(s: State, s': State)
    requires KeysUnique(s) && s.queue != [] && s'.queue == s.queue[1..] && s'.tasks == s.tasks && s'.actor.nextKey >= s.actor.nextKey
    ensures KeysUnique(s')
    ensures forall k: Key :: Bears(s', k) ==> Bears(s, k) && FlushKey(s.queue[0]) != Some(k)
  {
    assert forall i :: 0 <= i < |s'.queue| ==> s'.queue[i] == s.queue[i + 1];
  }

  lemma ActOnUpdate(s: State, s': State, t: TaskId, key: Option<Key>)
    requires KeysUnique(s) && s.queue != [] && s'.queue == s.queue[1..] && FlushKey(s.queue[0]) == None
    requires t in s.tasks && s.tasks[t].pc.AwaitingKey? && s'.tasks == s.tasks[t := s.tasks[t].(pc := Sending(key))]
    requires if key.Some? then key.value == s.actor.nextKey && s'.actor.nextKey == s.actor.nextKey + 1 else s'.actor.nextKey == s.actor.nextKey
    ensures KeysUnique(s')
    ensures forall k: Key :: k < s.actor.nextKey && Bears(s', k) ==> Bears(s, k)
  {
    assert forall i :: 0 <= i < |s'.queue| ==> s'.queue[i] == s.queue[i + 1];
    assert forall u :: u in s'.tasks && u != t ==> s'.tasks[u] == s.tasks[u];
  }

  lemma KeysStep(c: Config, s: State, step: Step, s': State)
    requires KeysUnique(s) && Tidy(s) && Enabled(c, s, step) && s' == Apply(c, s, step)
    ensures KeysUnique(s')
    ensures forall k: Key :: k < s.actor.nextKey && Bears(s', k) ==> Bears(s, k) && (step.Act? ==> FlushKey(s.queue[0]) != Some(k))
  {
    if step.Act? {
      ActKeys(c, s, step, s');
    } else if step.RequestFlush? {
      FlushMovesKey(c, s, step, s');
    } else {
      NoNewKeysStep(c, s, step);
      NoNewKeysUnique(s, s');
    }
  }

  lemma {:induction false} RunKeys(c: Config, states: seq<State>, steps: seq<Step>, n: nat)
    requires IsRun(c, states, steps) && n <= |steps|
    ensures KeysUnique(states[n])
  {
    if n > 0 {
      RunKeys(c, states, steps, n - 1);
      RunIsTidy(c, states, steps, n - 1);
      KeysStep(c, states[n - 1], steps[n - 1], states[n]);
    }
  }

  // ----- what is staged stays staged

  /** The actor acts on an event that empties its slots. */
  predicate Clears(s: State, step: Step) {
    step.Act? && step.handleOk && s.queue != [] && s.queue[0].Other?
    && (s.queue[0].event.Clear? || s.queue[0].event.GarbageCollect?)
  }

  ghost predicate NoneClears(states: seq<State>, steps: seq<Step>, a: nat, n: nat)
    requires n <= |steps| <= |states|
  {
    forall i {:trigger steps[i]} :: a < i < n ==> !Clears(states[i], steps[i])
  }

  predicate Stands(s: State, k: Key, offsets: Offsets) { k in s.actor.pending && s.actor.pending[k] == offsets && k < s.actor.nextKey }

  lemma StandsStep(c: Config, s: State, step: Step, s': State, k: Key, offsets: Offsets)
    requires Enabled(c, s, step) && s' == Apply(c, s, step)
    requires Stands(s, k, offsets) && !Clears(s, step)
    requires step.Act? ==> FlushKey(s.queue[0]) != Some(k)
    ensures Stands(s', k, offsets)
  {
    ActorStep(c, s, step);
  }

  /** As long as someone bears the key, and the slots are not emptied, it stands for what was staged under it. */
  lemma {:induction false} StandsOn(c: Config, states: seq<State>, steps: seq<Step>, m: nat, n: nat, k: Key, offsets: Offsets)
    requires IsRun(c, states, steps) && m <= n <= |steps|
    requires Stands(states[m], k, offsets)
    requires forall i {:trigger steps[i]} :: m <= i < n ==> !Clears(states[i], steps[i])
    ensures k < states[n].actor.nextKey && (Bears(states[n], k) ==> Stands(states[n], k, offsets))
    decreases n
  {
    if m < n {
      StandsOn(c, states, steps, m, n - 1, k, offsets);
      RunKeys(c, states, steps, n - 1);
      RunIsTidy(c, states, steps, n - 1);
      StandsNext(c, states[n - 1], steps[n - 1], states[n], k, offsets);
    }
  }

  lemma StagedNow(c: Config, s: State, step: Step, t: TaskId, offsets: Offsets)
    requires Enabled(c, s, step) && TakesUpdate(s, step, t, offsets) && step.handleOk
    ensures Stands(Apply(c, s, step), s.actor.nextKey, offsets)
  {
    ActorStep(c, s, step);
  }

  lemma StandsNext(c: Config, s: State, step: Step, s': State, k: Key, offsets: Offsets)
    requires KeysUnique(s) && Tidy(s) && Enabled(c, s, step) && s' == Apply(c, s, step)
    requires k < s.actor.nextKey && !Clears(s, step) && (Bears(s, k) ==> Stands(s, k, offsets))
    ensures k < s'.actor.nextKey && (Bears(s', k) ==> Stands(s', k, offsets))
  {
    ActorStep(c, s, step);
    if Bears(s', k) {
      KeysStep(c, s, step, s');
      StandsStep(c, s, step, s', k, offsets);
    }
  }

  // ----- from the answer to the row

  /** Given the key `k`, the sender has it until it requests the flush, or gives the batch up to a retry. */
  predicate Keyed(task: Task, k: Key) {
    !task.pc.Starting? && !task.pc.AwaitingKey? && (task.pc.Sending? || task.pc.Answered? ==> task.pc.key == Some(k))
  }

  lemma {:induction false} KeyStays(c: Config, states: seq<State>, steps: seq<Step>, a: nat, n: nat, t: TaskId, offsets: Offsets)
    requires IsRun(c, states, steps) && a < n <= |steps|
    requires TakesUpdate(states[a], steps[a], t, offsets) && steps[a].handleOk
    ensures t in states[n].tasks && Keyed(states[n].tasks[t], states[a].actor.nextKey)
    decreases n
  {
    var s, step := states[n - 1], steps[n - 1];
    if a < n - 1 {
      KeyStays(c, states, steps, a, n - 1, t, offsets);
      RunIsTidy(c, states, steps, n - 1);
      KeyedStep(c, s, step, states[n], t, states[a].actor.nextKey);
    }
  }

  lemma KeyedStep(c: Config, s: State, step: Step, s': State, t: TaskId, k: Key)
    requires Tidy(s) && Enabled(c, s, step) && s' == Apply(c, s, step)
    requires t in s.tasks && Keyed(s.tasks[t], k)
    ensures t in s'.tasks && Keyed(s'.tasks[t], k)
  {
    OneTaskMoves(c, s, step);
    if OfSpill(step) { RetryStep(c, s, step); }
  }

  predicate RowEncodes(a: OffsetActor.State, f: FileId)
    requires f in a.files
  {
    a.files[f] != [] && f in a.db && a.db[f] == Encode(a.files[f])
  }

  /** All the offsets are in memory, and, if the write went through, in rows that encode what is in memory. */
  ghost predicate Persisted(a: OffsetActor.State, offsets: Offsets, written: bool) {
    && (forall f, x :: f in offsets && Covers(offsets[f], x) ==> Covers(SpansOf(a.files, f), x))
    && (written ==> forall f :: f in offsets && offsets[f] != [] ==> f in a.files && RowEncodes(a, f))
  }

  lemma FlushedPersists(a: OffsetActor.State, k: Key, offsets: Offsets, writeOk: bool)
    requires OffsetActor.Inv(a) && k in a.pending && a.pending[k] == offsets
    ensures Persisted(OffsetActor.Step(a, OffsetActor.Input(OffsetActor.Flush(Some(k)), true, writeOk)), offsets, writeOk)
  {
    var input := OffsetActor.Input(OffsetActor.Flush(Some(k)), true, writeOk);
    var a' := OffsetActor.Step(a, input);
    assert OffsetActor.FlushedBatch(a, Some(k)) == offsets;
    forall f | f in offsets
      ensures forall x :: Covers(offsets[f], x) ==> Covers(SpansOf(a'.files, f), x)
      ensures writeOk && offsets[f] != [] ==> f in a'.files && RowEncodes(a', f)
    {
      FileFlushed(a, input, offsets, f);
    }
  }

  lemma FileFlushed(a: OffsetActor.State, input: OffsetActor.Input, offsets: Offsets, f: FileId)
    requires OffsetActor.Inv(a) && OffsetRuns.FlushesFile(a, input, f) && offsets == OffsetActor.FlushedBatch(a, input.event.key)
    ensures var a' := OffsetActor.Step(a, input);
            && (forall x :: Covers(offsets[f], x) ==> Covers(SpansOf(a'.files, f), x))
            && (input.writeOk && offsets[f] != [] ==> f in a'.files && RowEncodes(a', f))
  {
    OffsetRuns.StepFlushed(a, input, f);
    var merged := OffsetActor.MergedSpans(a.files, offsets, f);
    forall x | Covers(offsets[f], x) ensures Covers(merged, x) { InsertedAllCovers(SpansOf(a.files, f), offsets[f], x); }
    if offsets[f] != [] {
      FirstStartCovered(offsets[f]);
      assert Covers(merged, offsets[f][0].start);
    }
  }

  /** When the actor takes the flush, what was staged is persisted, unless the slots were emptied in between. */
  lemma FlushPersists(c: Config, states: seq<State>, steps: seq<Step>, a: nat, j: nat, t: TaskId, offsets: Offsets)
    requires IsRun(c, states, steps) && a < j < |steps|
    requires TakesUpdate(states[a], steps[a], t, offsets) && steps[a].handleOk
    requires steps[j].Act? && steps[j].handleOk && states[j].queue[0] == Other(OffsetActor.Flush(Some(states[a].actor.nextKey)))
    requires NoneClears(states, steps, a, j)
    ensures Persisted(states[j + 1].actor, offsets, steps[j].writeOk)
  {
    var k := states[a].actor.nextKey;
    assert FlushKey(states[j].queue[0]) == Some(k);
    StagedNow(c, states[a], steps[a], t, offsets);
    StandsOn(c, states, steps, a + 1, j, k, offsets);
    ActorIsSound(c, states, steps, j);
    ActorStep(c, states[j], steps[j]);
    FlushedPersists(states[j].actor, k, offsets, steps[j].writeOk);
  }

  lemma ActorIsSound(c: Config, states: seq<State>, steps: seq<Step>, n: nat)
    requires IsRun(c, states, steps) && n <= |steps|
    ensures OffsetActor.Inv(states[n].actor)
  {
    PersistedIsAnswered(c, states, steps, n);
  }

  /** A message that is sent stays in the queue until the actor takes it. */
  lemma {:induction false} SentIsTaken(c: Config, states: seq<State>, steps: seq<Step>, i: nat, n: nat, m: Message)
    requires IsRun(c, states, steps) && i < n <= |steps| && m in SentBy(c, states[i], steps[i])
    ensures m in states[n].queue || exists j :: i < j < n && steps[j].Act? && states[j].queue[0] == m
    decreases n
  {
    var s, step := states[n - 1], steps[n - 1];
    QueueStep(c, s, step);
    if i == n - 1 {
      assert m in states[n].queue;
    } else {
      SentIsTaken(c, states, steps, i, n - 1, m);
      if m in s.queue && step.Act? && s.queue[0] != m {
        assert s.queue == [s.queue[0]] + s.queue[1..];
        assert m in s.queue[1..];
      }
    }
  }

  /**
   A batch was staged at step `a`, answered, and its sender requested the flush at
   step `i`. From then on the flush of its key is queued, until the actor takes it;
   and then its offsets are in memory and, if the write goes through, in the
   database, provided the database could be reached and the slots were not emptied.
   */
  lemma AnsweredIsPersisted(c: Config, states: seq<State>, steps: seq<Step>, a: nat, i: nat, n: nat, t: TaskId, offsets: Offsets)
    requires IsRun(c, states, steps) && a < i < n <= |steps| && c.stateful
    requires TakesUpdate(states[a], steps[a], t, offsets) && steps[a].handleOk && steps[i] == RequestFlush(t)
    ensures var flush := Other(OffsetActor.Flush(Some(states[a].actor.nextKey)));
            || flush in states[n].queue
            || exists j :: i < j < n && steps[j].Act? && states[j].queue[0] == flush
                 && (steps[j].handleOk && NoneClears(states, steps, a, j) ==>
                       Persisted(states[j + 1].actor, offsets, steps[j].writeOk))
  {
    var k := states[a].actor.nextKey;
    var flush := Other(OffsetActor.Flush(Some(k)));
    KeyStays(c, states, steps, a, i, t, offsets);
    assert SentBy(c, states[i], steps[i]) == [flush];
    SentIsTaken(c, states, steps, i, n, flush);
    if flush !in states[n].queue {
      var j :| i < j < n && steps[j].Act? && states[j].queue[0] == flush;
      if steps[j].handleOk && NoneClears(states, steps, a, j) { FlushPersists(c, states, steps, a, j, t, offsets); }
    }
  }
}
