/**
 No batch disappears unnoticed, and nothing is persisted that was not answered
 (common/http/src/client.rs:69-135, common/http/src/retry.rs:122-239).
 */
module SendDelivery {
  import opened Prelude
  import opened Spans
  import opened OffsetMaps
  import opened Codec
  import opened SendProtocol
  import opened SendFrames
  import OffsetActor
  import OffsetRuns

  // ----- every batch is in exactly one place

  predicate InFlight(pc: Pc) { !pc.Answered? && !pc.Finished? }

  predicate Carries(consumer: Consumer, b: Batch) {
    (consumer.Removed? || consumer.Holding?) && consumer.batch == b
  }

  /** What it means, in terms of the actual state, that a batch is somewhere. */
  predicate Sits(s: State, p: Place, b: Batch) {
    match p
    case AtTask(t) => t in s.tasks && s.tasks[t].batch == b && InFlight(s.tasks[t].pc)
    case AtFile(n) => n in s.visible && s.visible[n].batch == b
    case AtConsumer => Carries(s.consumer, b)
    case AtServer => b in s.books.acked
    case Nowhere => b in s.books.dropped
  }

  ghost predicate Placed(s: State) {
    forall p, b :: Sits(s, p, b) <==> b in s.books.place && s.books.place[b] == p
  }

  lemma PlacedInit(c: Config, s: State)
    requires Init(c, s)
    ensures Placed(s)
  {
  }

  /** The one batch that a step can move. */
  function MovedBatch(s: State, step: Step): Option<Batch> {
    match step
    case Submit(_, b) => Some(b)
    case Emit(_) => if s.consumer.Holding? then Some(s.consumer.batch) else None
    case Remove => if s.consumer.Measured? then Some(s.consumer.batch) else None
    case ParseFails => if s.consumer.Holding? then Some(s.consumer.batch) else None
    case _ => match Moves(s, step)
      case Some(t) => if t in s.tasks then Some(s.tasks[t].batch) else None
      case None => None
  }

  lemma OthersStayByConsumer(c: Config, s: State, step: Step, p: Place, b: Batch)
    requires Tidy(s) && Enabled(c, s, step) && MovedBatch(s, step) != Some(b) && OfConsumer(step)
    ensures Sits(Apply(c, s, step), p, b) <==> Sits(s, p, b)
  {
    assert Apply(c, s, step).tasks == s.tasks;
  }

  lemma OthersStayInRetry(s: State, s': State, t: TaskId, p: Place, b: Batch)
    requires TidyTasks(s) && t in s.tasks && RetryOutcome(s, s', t) && b != s.tasks[t].batch
    ensures Sits(s', p, b) <==> Sits(s, p, b)
    ensures SamePlace(s, s', b)
  {
  }

  lemma OthersStayOutside(c: Config, s: State, step: Step, p: Place, b: Batch)
    requires Tidy(s) && Enabled(c, s, step) && MovedBatch(s, step) != Some(b) && !OfConsumer(step) && !OfSpill(step)
    ensures Sits(Apply(c, s, step), p, b) <==> Sits(s, p, b)
  {
    OneTaskMoves(c, s, step);
  }

  lemma OthersKeepPlaceOutside(c: Config, s: State, step: Step, b: Batch)
    requires Enabled(c, s, step) && MovedBatch(s, step) != Some(b) && !OfSpill(step)
    ensures SamePlace(s, Apply(c, s, step), b)
  {
  }

  predicate SamePlace(s: State, s': State, b: Batch) {
    if b in s.books.place then b in s'.books.place && s'.books.place[b] == s.books.place[b] else b !in s'.books.place
  }

  lemma MovedTaskBatchInRetry(s: State, s': State, t: TaskId, p: Place, b: Batch)
    requires TidyTasks(s) && Placed(s) && t in s.tasks && RetryOutcome(s, s', t) && b == s.tasks[t].batch
    ensures Sits(s', p, b) <==> b in s'.books.place && s'.books.place[b] == p
  {
    assert Sits(s, AtTask(t), b);
    assert Sits(s, p, b) <==> b in s.books.place && s.books.place[b] == p;
  }

  lemma MovedTaskBatchOutside(c: Config, s: State, step: Step, p: Place, b: Batch)
    requires Tidy(s) && Placed(s) && Enabled(c, s, step) && MovedBatch(s, step) == Some(b)
    requires Moves(s, step).Some? && Moves(s, step).value in s.tasks && !OfSpill(step)
    ensures var s' := Apply(c, s, step);
            Sits(s', p, b) <==> b in s'.books.place && s'.books.place[b] == p
  {
    var t := Moves(s, step).value;
    OneTaskMoves(c, s, step);
    assert Sits(s, AtTask(t), b) <==> InFlight(s.tasks[t].pc);
    assert Sits(s, p, b) <==> b in s.books.place && s.books.place[b] == p;
  }

  lemma MovedOtherBatch(c: Config, s: State, step: Step, p: Place, b: Batch)
    requires Tidy(s) && Placed(s) && Enabled(c, s, step) && MovedBatch(s, step) == Some(b)
    requires step.Submit? || step.Emit? || step.Remove? || step.ParseFails?
    ensures var s' := Apply(c, s, step);
            Sits(s', p, b) <==> b in s'.books.place && s'.books.place[b] == p
  {
    assert Sits(s, p, b) <==> b in s.books.place && s.books.place[b] == p;
    if step.Remove? { assert Sits(s, AtFile(s.consumer.name), b); }
    if step.Emit? || step.ParseFails? { assert Sits(s, AtConsumer, b); }
  }

  /** A step leaves all batches but one where they are. */
  lemma OthersUntouched(c: Config, s: State, step: Step, s': State, p: Place, b: Batch)
    requires Tidy(s) && Enabled(c, s, step) && s' == Apply(c, s, step) && MovedBatch(s, step) != Some(b)
    ensures (Sits(s', p, b) <==> Sits(s, p, b)) && SamePlace(s, s', b)
  {
    if OfSpill(step) {
      RetryStep(c, s, step);
      OthersStayInRetry(s, s', step.t, p, b);
    } else {
      if OfConsumer(step) { OthersStayByConsumer(c, s, step, p, b); } else { OthersStayOutside(c, s, step, p, b); }
      OthersKeepPlaceOutside(c, s, step, b);
    }
  }

  lemma PlacedStep(c: Config, s: State, step: Step)
    requires Tidy(s) && Placed(s) && Enabled(c, s, step)
    ensures Placed(Apply(c, s, step))
  {
    var s' := Apply(c, s, step);
    forall p, b ensures Sits(s', p, b) <==> b in s'.books.place && s'.books.place[b] == p {
      assert Sits(s, p, b) <==> b in s.books.place && s.books.place[b] == p;
      if MovedBatch(s, step) != Some(b) {
        OthersUntouched(c, s, step, s', p, b);
      } else if step.Submit? || step.Emit? || step.Remove? || step.ParseFails? {
        MovedOtherBatch(c, s, step, p, b);
      } else if OfSpill(step) {
        RetryStep(c, s, step);
        MovedTaskBatchInRetry(s, s', step.t, p, b);
      } else {
        MovedTaskBatchOutside(c, s, step, p, b);
      }
    }
  }

  lemma {:induction false} RunIsPlaced(c: Config, states: seq<State>, steps: seq<Step>, n: nat)
    requires IsRun(c, states, steps) && n <= |steps|
    ensures Tidy(states[n]) && Placed(states[n])
  {
    if n == 0 {
      TidyInit(c, states[0]);
      PlacedInit(c, states[0]);
    } else {
      RunIsPlaced(c, states, steps, n - 1);
      TidyStep(c, states[n - 1], steps[n - 1]);
      PlacedStep(c, states[n - 1], steps[n - 1]);
    }
  }

  lemma {:induction false} StaysPlaced(c: Config, states: seq<State>, steps: seq<Step>, m: nat, n: nat, b: Batch)
    requires IsRun(c, states, steps) && m <= n <= |steps| && b in states[m].books.place
    ensures b in states[n].books.place
    decreases n
  {
    if m < n {
      StaysPlaced(c, states, steps, m, n - 1, b);
      PlaceGrows(c, states[n - 1], steps[n - 1], b);
    }
  }

  lemma PlaceGrows(c: Config, s: State, step: Step, b: Batch)
    requires Enabled(c, s, step) && b in s.books.place
    ensures b in Apply(c, s, step).books.place
  {
    if OfSpill(step) { RetryStep(c, s, step); } else { PlaceGrowsOutside(c, s, step, b); }
  }

  lemma PlaceGrowsOutside(c: Config, s: State, step: Step, b: Batch)
    requires Enabled(c, s, step) && b in s.books.place && !OfSpill(step)
    ensures b in Apply(c, s, step).books.place
  {
  }

  /**
   From the moment a batch is submitted it is in exactly one place: with a
   sender, answered, in the retry directory, with the reader of that directory,
   or given up.
   */
  lemma BatchHasOnePlace(c: Config, states: seq<State>, steps: seq<Step>, i: nat, n: nat, t: TaskId, b: Batch)
    requires IsRun(c, states, steps) && i < n <= |steps| && steps[i] == Submit(t, b)
    ensures exists p :: Sits(states[n], p, b) && forall q :: Sits(states[n], q, b) ==> q == p
  {
    RunIsPlaced(c, states, steps, n);
    StaysPlaced(c, states, steps, i + 1, n, b);
    var p := states[n].books.place[b];
    assert Sits(states[n], p, b);
  }

  /** The same for a batch whose retry file was left over by an earlier run. */
  lemma LeftoverHasOnePlace(c: Config, states: seq<State>, steps: seq<Step>, name: Name, n: nat)
    requires IsRun(c, states, steps) && n <= |steps| && name in states[0].visible
    ensures var b := states[0].visible[name].batch;
            exists p :: Sits(states[n], p, b) && forall q :: Sits(states[n], q, b) ==> q == p
  {
    RunIsPlaced(c, states, steps, n);
    var b := states[0].visible[name].batch;
    StaysPlaced(c, states, steps, 0, n, b);
    assert Sits(states[n], states[n].books.place[b], b);
  }

  /** Without a limit nobody compares and swaps. */
  ghost predicate NobodySwaps(s: State) { forall t :: t in s.tasks ==> !s.tasks[t].pc.Swapping? }

  /** Batches are given up only over the quota, on file errors and on final refusals. */
  lemma {:induction false} NothingDropped(c: Config, states: seq<State>, steps: seq<Step>, n: nat)
    requires IsRun(c, states, steps) && n <= |steps|
    requires c.limit.None? && c.ioOk && c.statusOk
    ensures states[n].books.dropped == {} && NobodySwaps(states[n])
  {
    if n > 0 {
      NothingDropped(c, states, steps, n - 1);
      DropsNothing(c, states[n - 1], steps[n - 1]);
      NobodySwapsStep(c, states[n - 1], steps[n - 1]);
    }
  }

  lemma NobodySwapsStep(c: Config, s: State, step: Step)
    requires NobodySwaps(s) && c.limit.None? && Enabled(c, s, step)
    ensures NobodySwaps(Apply(c, s, step))
  {
    if OfConsumer(step) {
      ReaderStep(c, s, step);
    } else if OfSpill(step) {
      RetryStep(c, s, step);
      ChargeStep(c, s, step);
    } else {
      OneTaskMoves(c, s, step);
      OutsidePc(c, s, step);
    }
  }

  lemma OutsidePc(c: Config, s: State, step: Step)
    requires Enabled(c, s, step) && !OfConsumer(step) && !OfSpill(step)
    ensures Moves(s, step).Some? ==>
              Moves(s, step).value in Apply(c, s, step).tasks && !Apply(c, s, step).tasks[Moves(s, step).value].pc.Swapping?
  {
  }

  lemma DropsNothing(c: Config, s: State, step: Step)
    requires NobodySwaps(s) && c.limit.None? && c.ioOk && c.statusOk && Enabled(c, s, step)
    ensures Apply(c, s, step).books.dropped == s.books.dropped
  {
    if OfSpill(step) { DropsNothingInRetry(c, s, step); } else { DropsNothingOutside(c, s, step); }
  }

  lemma DropsNothingInRetry(c: Config, s: State, step: Step)
    requires NobodySwaps(s) && c.limit.None? && c.ioOk && Enabled(c, s, step) && OfSpill(step)
    ensures Apply(c, s, step).books.dropped == s.books.dropped
  {
  }

  lemma DropsNothingOutside(c: Config, s: State, step: Step)
    requires c.ioOk && c.statusOk && Enabled(c, s, step) && !OfSpill(step)
    ensures Apply(c, s, step).books.dropped == s.books.dropped
  {
  }

  // ----- only answered batches are persisted

  ghost predicate Carried(b: Batch, f: FileId, x: int) {
    b.offsets.Some? && Covers(SpansOf(b.offsets.value, f), x)
  }

  /** Some batch whose request was answered `Sent` carries the offset. */
  ghost predicate Justified(s: State, f: FileId, x: int) {
    exists b :: b in s.books.acked && Carried(b, f, x)
  }

  ghost predicate AllJustified(s: State, f: FileId, v: seq<Span>) {
    forall x :: Covers(v, x) ==> Justified(s, f, x)
  }

  /** A row is left over from before the run, or encodes justified spans only. */
  ghost predicate RowJustified(s: State, initial: OffsetActor.Rows, f: FileId)
    requires f in s.actor.db
  {
    (f in initial && s.actor.db[f] == initial[f])
    || exists v: seq<Span> :: v != [] && s.actor.db[f] == Encode(v) && AllJustified(s, f, v)
  }

  /** Keys in the hands of senders and in queued flushes stand for the right batch. */
  ghost predicate KeysRight(s: State) { StagedRight(s) && SendersRight(s) && FlushesRight(s) }

  ghost predicate StagedRight(s: State) {
    && (forall k :: k in s.books.owner ==> k < s.actor.nextKey)
    && (forall k :: k in s.actor.pending ==> k in s.books.owner && s.books.owner[k].offsets == Some(s.actor.pending[k]))
  }

  predicate OwnKey(s: State, key: Option<Key>, b: Batch) {
    key.Some? ==> key.value in s.books.owner && s.books.owner[key.value] == b
  }

  ghost predicate SendersRight(s: State) {
    forall t :: t in s.tasks ==> SenderRight(s, s.tasks[t])
  }

  predicate AnsweredMessage(s: State, m: Message) {
    m.Other? ==>
      && !m.event.Update?
      && (m.event.Flush? && m.event.key.Some? ==> m.event.key.value in s.books.owner && s.books.owner[m.event.key.value] in s.books.acked)
  }

  ghost predicate FlushesRight(s: State) {
    forall i :: 0 <= i < |s.queue| ==> AnsweredMessage(s, s.queue[i])
  }

  ghost predicate MemoryJustified(s: State) {
    forall f :: f in s.actor.files ==> AllJustified(s, f, s.actor.files[f])
  }

  ghost predicate Safe(s: State, initial: OffsetActor.Rows) {
    && OffsetActor.Inv(s.actor) && KeysRight(s) && MemoryJustified(s)
    && forall f :: f in s.actor.db ==> RowJustified(s, initial, f)
  }

  lemma KeysRightStep(c: Config, s: State, step: Step)
    requires Tidy(s) && KeysRight(s) && OffsetActor.Inv(s.actor) && Enabled(c, s, step)
    ensures KeysRight(Apply(c, s, step))
  {
    StagedRightStep(c, s, step);
    OwnersStay(c, s, step);
    SendersRightStep(c, s, step);
    FlushesRightStep(c, s, step);
  }

  lemma StagedRightStep(c: Config, s: State, step: Step)
    requires Tidy(s) && StagedRight(s) && Enabled(c, s, step)
    requires forall i :: 0 <= i < |s.queue| ==> AnsweredMessage(s, s.queue[i])
    ensures StagedRight(Apply(c, s, step))
  {
    if step.Act? {
      StagedRightAct(c, s, step);
    } else {
      assert Apply(c, s, step).actor == s.actor && Apply(c, s, step).books.owner == s.books.owner;
    }
  }

  lemma StagedRightAct(c: Config, s: State, step: Step)
    requires Tidy(s) && StagedRight(s) && Enabled(c, s, step) && step.Act? && AnsweredMessage(s, s.queue[0])
    ensures StagedRight(Apply(c, s, step))
  {
    var s', m := Apply(c, s, step), s.queue[0];
    assert m.Staging? ==> s.tasks[m.task].batch.offsets == Some(m.offsets);
    PendingAfter(s.actor, ActorInput(m, step.handleOk, step.writeOk));
    assert s'.actor == OffsetActor.Step(s.actor, ActorInput(m, step.handleOk, step.writeOk));
    assert s'.books.owner == if m.Staging? && step.handleOk then s.books.owner[s.actor.nextKey := s.tasks[m.task].batch] else s.books.owner;
  }

  lemma PendingAfter(a: OffsetActor.State, input: OffsetActor.Input)
    ensures var a' := OffsetActor.Step(a, input);
            if input.handleOk && input.event.Update?
            then a'.nextKey == a.nextKey + 1 && a'.pending == a.pending[a.nextKey := input.event.offsets]
            else a'.nextKey == a.nextKey && forall k :: k in a'.pending ==> k in a.pending && a'.pending[k] == a.pending[k]
  {
  }

  lemma OwnersStay(c: Config, s: State, step: Step)
    requires StagedRight(s) && Enabled(c, s, step)
    ensures var s' := Apply(c, s, step);
            && s.books.acked <= s'.books.acked
            && forall k :: k in s.books.owner ==> k in s'.books.owner && s'.books.owner[k] == s.books.owner[k]
  {
    if OfSpill(step) { RetryStep(c, s, step); } else { OwnersStayOutside(c, s, step); }
  }

  lemma OwnersStayOutside(c: Config, s: State, step: Step)
    requires StagedRight(s) && Enabled(c, s, step) && !OfSpill(step)
    ensures var s' := Apply(c, s, step);
            && s.books.acked <= s'.books.acked
            && forall k :: k in s.books.owner ==> k in s'.books.owner && s'.books.owner[k] == s.books.owner[k]
  {
  }

  lemma SendersRightStep(c: Config, s: State, step: Step)
    requires StagedRight(s) && SendersRight(s) && Enabled(c, s, step)
    ensures SendersRight(Apply(c, s, step))
  {
    OneTaskMoves(c, s, step);
    OwnersStay(c, s, step);
    var s' := Apply(c, s, step);
    match Moves(s, step)
    case Some(t) => SenderRightStep(c, s, step, t);
    case None => assert s'.tasks == s.tasks;
  }

  predicate SenderRight(s: State, task: Task) {
    && (task.pc.Sending? ==> OwnKey(s, task.pc.key, task.batch))
    && (task.pc.Answered? ==> OwnKey(s, task.pc.key, task.batch) && task.batch in s.books.acked)
  }

  lemma SenderRightStep(c: Config, s: State, step: Step, t: TaskId)
    requires StagedRight(s) && SendersRight(s) && Enabled(c, s, step) && Moves(s, step) == Some(t)
    ensures t in Apply(c, s, step).tasks && SenderRight(Apply(c, s, step), Apply(c, s, step).tasks[t])
  {
    if OfSpill(step) { RetryStep(c, s, step); } else { SenderRightOutside(c, s, step, t); }
  }

  lemma SenderRightOutside(c: Config, s: State, step: Step, t: TaskId)
    requires StagedRight(s) && SendersRight(s) && Enabled(c, s, step) && Moves(s, step) == Some(t) && !OfSpill(step)
    ensures t in Apply(c, s, step).tasks && SenderRight(Apply(c, s, step), Apply(c, s, step).tasks[t])
  {
    assert t in s.tasks ==> SenderRight(s, s.tasks[t]);
  }

  lemma FlushesRightStep(c: Config, s: State, step: Step)
    requires StagedRight(s) && SendersRight(s) && FlushesRight(s) && Enabled(c, s, step)
    ensures FlushesRight(Apply(c, s, step))
  {
    var s' := Apply(c, s, step);
    OwnersStay(c, s, step);
    forall i | 0 <= i < |s'.queue| ensures AnsweredMessage(s', s'.queue[i]) {
      if step.Act? {
        assert s'.queue[i] == s.queue[i + 1] && AnsweredMessage(s, s.queue[i + 1]);
      } else if i < |s.queue| {
        assert s'.queue[i] == s.queue[i] && AnsweredMessage(s, s.queue[i]);
      }
    }
  }

  /** What one actor step does to a file's offsets, when the flushed batch was answered. */
  lemma SafeAct(c: Config, s: State, step: Step, initial: OffsetActor.Rows)
    requires Tidy(s) && Safe(s, initial) && Enabled(c, s, step) && step.Act?
    ensures MemoryJustified(Apply(c, s, step))
    ensures forall f :: f in Apply(c, s, step).actor.db ==> RowJustified(Apply(c, s, step), initial, f)
  {
    var s' := Apply(c, s, step);
    var input := ActorInput(s.queue[0], step.handleOk, step.writeOk);
    assert s'.actor == OffsetActor.Step(s.actor, input) && s'.books.acked == s.books.acked;
    forall f | f in s'.actor.files ensures AllJustified(s', f, s'.actor.files[f]) {
      FileStaysJustified(s, s', input, f);
    }
    forall f | f in s'.actor.db ensures RowJustified(s', initial, f) {
      RowStaysJustified(s, s', input, initial, f);
    }
  }

  lemma FileStaysJustified(s: State, s': State, input: OffsetActor.Input, f: FileId)
    requires OffsetActor.Inv(s.actor) && MemoryJustified(s)
    requires s'.actor == OffsetActor.Step(s.actor, input) && s'.books.acked == s.books.acked
    requires OffsetRuns.FlushesFile(s.actor, input, f) ==>
               exists b :: b in s.books.acked && b.offsets == Some(OffsetActor.FlushedBatch(s.actor, input.event.key))
    requires f in s'.actor.files
    ensures AllJustified(s', f, s'.actor.files[f])
  {
    if OffsetRuns.FlushesFile(s.actor, input, f) {
      OffsetRuns.StepFlushed(s.actor, input, f);
      MergedJustified(s, input.event.key, f);
    } else {
      OffsetRuns.StepElsewhere(s.actor, input, f);
    }
  }

  lemma MergedJustified(s: State, key: Option<Key>, f: FileId)
    requires MemoryJustified(s) && f in OffsetActor.FlushedBatch(s.actor, key)
    requires exists b :: b in s.books.acked && b.offsets == Some(OffsetActor.FlushedBatch(s.actor, key))
    ensures AllJustified(s, f, OffsetActor.MergedSpans(s.actor.files, OffsetActor.FlushedBatch(s.actor, key), f))
  {
    var staged := OffsetActor.FlushedBatch(s.actor, key);
    var b :| b in s.books.acked && b.offsets == Some(staged);
    forall x | Covers(OffsetActor.MergedSpans(s.actor.files, staged, f), x) ensures Justified(s, f, x) {
      InsertedAllCovers(SpansOf(s.actor.files, f), staged[f], x);
      if Covers(staged[f], x) { assert Carried(b, f, x); }
    }
  }

  lemma RowStaysJustified(s: State, s': State, input: OffsetActor.Input, initial: OffsetActor.Rows, f: FileId)
    requires OffsetActor.Inv(s.actor) && MemoryJustified(s)
    requires forall g :: g in s.actor.db ==> RowJustified(s, initial, g)
    requires s'.actor == OffsetActor.Step(s.actor, input) && s'.books.acked == s.books.acked
    requires OffsetRuns.FlushesFile(s.actor, input, f) ==>
               exists b :: b in s.books.acked && b.offsets == Some(OffsetActor.FlushedBatch(s.actor, input.event.key))
    requires f in s'.actor.db
    ensures RowJustified(s', initial, f)
  {
    OffsetRuns.StepRow(s.actor, input, f);
    if f in s.actor.db && s'.actor.db[f] == s.actor.db[f] {
      SameRowJustified(s, s', initial, f);
    } else {
      var merged := OffsetActor.MergedSpans(s.actor.files, OffsetActor.FlushedBatch(s.actor, input.event.key), f);
      MergedJustified(s, input.event.key, f);
      NewRowJustified(s, s', initial, f, merged);
    }
  }

  lemma SameRowJustified(s: State, s': State, initial: OffsetActor.Rows, f: FileId)
    requires f in s.actor.db && f in s'.actor.db && s'.actor.db[f] == s.actor.db[f] && s.books.acked <= s'.books.acked
    requires RowJustified(s, initial, f)
    ensures RowJustified(s', initial, f)
  {
    if !(f in initial && s.actor.db[f] == initial[f]) {
      var v: seq<Span> :| v != [] && s.actor.db[f] == Encode(v) && AllJustified(s, f, v);
      JustifiedGrows(s, s', f, v);
    }
  }

  lemma NewRowJustified(s: State, s': State, initial: OffsetActor.Rows, f: FileId, v: seq<Span>)
    requires f in s'.actor.db && v != [] && s'.actor.db[f] == Encode(v) && AllJustified(s, f, v) && s.books.acked <= s'.books.acked
    ensures RowJustified(s', initial, f)
  {
    JustifiedGrows(s, s', f, v);
  }

  lemma JustifiedGrows(s: State, s': State, f: FileId, v: seq<Span>)
    requires AllJustified(s, f, v) && s.books.acked <= s'.books.acked
    ensures AllJustified(s', f, v)
  {
    forall x | Covers(v, x) ensures Justified(s', f, x) {
      var b :| b in s.books.acked && Carried(b, f, x);
      assert b in s'.books.acked;
    }
  }

  lemma SafeStep(c: Config, s: State, step: Step, initial: OffsetActor.Rows)
    requires Tidy(s) && Safe(s, initial) && Enabled(c, s, step)
    ensures Safe(Apply(c, s, step), initial)
  {
    var s' := Apply(c, s, step);
    KeysRightStep(c, s, step);
    if step.Act? {
      OffsetActor.StepKeepsInv(s.actor, ActorInput(s.queue[0], step.handleOk, step.writeOk));
      SafeAct(c, s, step, initial);
    } else {
      ActorStep(c, s, step);
      OwnersStay(c, s, step);
      SafeOther(s, s', initial);
    }
  }

  lemma SafeOther(s: State, s': State, initial: OffsetActor.Rows)
    requires Safe(s, initial) && s'.actor == s.actor && s.books.acked <= s'.books.acked
    ensures MemoryJustified(s')
    ensures forall f :: f in s'.actor.db ==> RowJustified(s', initial, f)
  {
    forall f | f in s'.actor.files ensures AllJustified(s', f, s'.actor.files[f]) {
      JustifiedGrows(s, s', f, s.actor.files[f]);
    }
    forall f | f in s'.actor.db ensures RowJustified(s', initial, f) {
      SameRowJustified(s, s', initial, f);
    }
  }

  /**
   Whatever the senders, the actor, the control events and the retries do, every
   row of the database is left over from before or encodes only offsets of
   batches that were answered `Sent`, and so does the actor's memory.
   */
  lemma {:induction false} PersistedIsAnswered(c: Config, states: seq<State>, steps: seq<Step>, n: nat)
    requires IsRun(c, states, steps) && n <= |steps|
    ensures Safe(states[n], states[0].actor.db)
  {
    if n == 0 {
      SafeInit(c, states[0]);
    } else {
      PersistedIsAnswered(c, states, steps, n - 1);
      RunIsTidy(c, states, steps, n - 1);
      SafeStep(c, states[n - 1], steps[n - 1], states[0].actor.db);
    }
  }

  lemma SafeInit(c: Config, s: State)
    requires Init(c, s)
    ensures Safe(s, s.actor.db)
  {
  }

}
