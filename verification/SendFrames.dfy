/** What every step of the send protocol leaves in order, and what the steps of each party leave alone. */
module SendFrames {
  import opened Prelude
  import opened Spans
  import opened OffsetMaps
  import opened SendProtocol
  import OffsetActor

  ghost predicate Tidy(s: State) { TidyTasks(s) && TidyConsumer(s) && TidyQueue(s) }

  /** An unfinished sender has no file in view yet. */
  ghost predicate TidyTasks(s: State) {
    forall t :: t in s.tasks && !s.tasks[t].pc.Finished? ==> t !in s.visible
  }

  /** The files that the consumer knows of are there, once each. */
  ghost predicate TidyConsumer(s: State) {
    && (forall i :: 0 <= i < |s.waiting| ==> s.waiting[i] in s.visible)
    && (forall i, j :: 0 <= i < j < |s.waiting| ==> s.waiting[i] != s.waiting[j])
    && (s.consumer.Popped? || s.consumer.Loaded? || s.consumer.Measured? ==>
          s.consumer.name in s.visible && s.consumer.name !in s.waiting)
    && (s.consumer.Loaded? || s.consumer.Measured? ==> s.visible[s.consumer.name].batch == s.consumer.batch)
  }

  /** A queued update belongs to the one sender that waits for its key. */
  ghost predicate TidyQueue(s: State) {
    && (forall i :: 0 <= i < |s.queue| && s.queue[i].Staging? ==>
          && s.queue[i].task in s.tasks
          && s.tasks[s.queue[i].task].pc.AwaitingKey?
          && s.tasks[s.queue[i].task].batch.offsets == Some(s.queue[i].offsets))
    && (forall i, j :: 0 <= i < j < |s.queue| && s.queue[i].Staging? && s.queue[j].Staging? ==>
          s.queue[i].task != s.queue[j].task)
  }

  lemma TidyStep(c: Config, s: State, step: Step)
    requires Tidy(s) && Enabled(c, s, step)
    ensures Tidy(Apply(c, s, step))
  {
    if OfSpill(step) { TidyTasksInRetry(c, s, step); } else { TidyTasksOutside(c, s, step); }
    if OfConsumer(step) { TidyByConsumer(c, s, step); } else { SendersLeaveConsumer(c, s, step); }
    if step.Act? { TidyQueueAct(c, s, step); } else { TidyQueueOther(c, s, step); }
  }

  lemma TidyTasksInRetry(c: Config, s: State, step: Step)
    requires Tidy(s) && Enabled(c, s, step) && OfSpill(step)
    ensures TidyTasks(Apply(c, s, step))
  {
  }

  lemma TidyTasksOutside(c: Config, s: State, step: Step)
    requires Tidy(s) && Enabled(c, s, step) && !OfSpill(step)
    ensures TidyTasks(Apply(c, s, step))
  {
  }

  lemma TidyByConsumer(c: Config, s: State, step: Step)
    requires TidyConsumer(s) && Enabled(c, s, step) && OfConsumer(step)
    ensures TidyConsumer(Apply(c, s, step))
  {
    var s' := Apply(c, s, step);
    if step.Pop? { assert forall i :: 0 <= i < |s'.waiting| ==> s'.waiting[i] == s.waiting[i + 1]; }
  }

  lemma TidyQueueAct(c: Config, s: State, step: Step)
    requires Tidy(s) && Enabled(c, s, step) && step.Act?
    ensures TidyQueue(Apply(c, s, step))
  {
    var s' := Apply(c, s, step);
    assert s'.queue == s.queue[1..];
    assert s.queue[0].Other? ==> s'.tasks == s.tasks;
    assert s.queue[0].Staging? ==> s'.tasks == s.tasks[s.queue[0].task := s'.tasks[s.queue[0].task]];
    assert forall i :: 0 <= i < |s'.queue| ==> s'.queue[i] == s.queue[i + 1];
  }

  /** A step other than the actor's moves at most one sender, not one that waits, and appends at most one message. */
  lemma TidyQueueOther(c: Config, s: State, step: Step)
    requires Tidy(s) && Enabled(c, s, step) && !step.Act?
    ensures TidyQueue(Apply(c, s, step))
  {
    OneTaskMoves(c, s, step);
    QueueGrows(c, s, step);
    TidyQueueLonger(s, Apply(c, s, step), Moves(s, step));
  }

  /** The appended message, if it stages offsets, is that of the sender which now waits. */
  lemma QueueGrows(c: Config, s: State, step: Step)
    requires Enabled(c, s, step) && !step.Act?
    ensures var s' := Apply(c, s, step);
            && (Moves(s, step).Some? && Moves(s, step).value in s.tasks ==> !s.tasks[Moves(s, step).value].pc.AwaitingKey?)
            && QueueAppended(s, s', Moves(s, step))
  {
    if OfSpill(step) { RetryStep(c, s, step); } else { QueueGrowsOutside(c, s, step); }
  }

  lemma QueueGrowsOutside(c: Config, s: State, step: Step)
    requires Enabled(c, s, step) && !step.Act? && !OfSpill(step)
    ensures var s' := Apply(c, s, step);
            && (Moves(s, step).Some? && Moves(s, step).value in s.tasks ==> !s.tasks[Moves(s, step).value].pc.AwaitingKey?)
            && QueueAppended(s, s', Moves(s, step))
  {
  }

  predicate QueueAppended(s: State, s': State, mover: Option<TaskId>) {
    || s'.queue == s.queue
    || (|s'.queue| == |s.queue| + 1 && s'.queue[..|s.queue|] == s.queue
        && (s'.queue[|s.queue|].Staging? ==>
              var m := s'.queue[|s.queue|];
              && mover == Some(m.task) && m.task in s'.tasks
              && s'.tasks[m.task].pc.AwaitingKey? && s'.tasks[m.task].batch.offsets == Some(m.offsets)))
  }

  lemma TidyQueueLonger(s: State, s': State, mover: Option<TaskId>)
    requires TidyQueue(s) && QueueAppended(s, s', mover)
    requires mover.Some? && mover.value in s.tasks ==> !s.tasks[mover.value].pc.AwaitingKey?
    requires match mover
             case None => s'.tasks == s.tasks
             case Some(t) => t in s'.tasks && s'.tasks == s.tasks[t := s'.tasks[t]]
    ensures TidyQueue(s')
  {
    assert forall i :: 0 <= i < |s.queue| ==> s'.queue[i] == s.queue[i];
  }

  /** Senders and the actor leave the reader and the files it knows of alone. */
  lemma SendersLeaveConsumer(c: Config, s: State, step: Step)
    requires TidyTasks(s) && Enabled(c, s, step) && !OfConsumer(step)
    ensures var s' := Apply(c, s, step);
            && (s'.consumer == s.consumer || s'.consumer.Idle?) && s'.waiting == s.waiting
            && forall n :: n in s.visible ==> n in s'.visible && s'.visible[n] == s.visible[n]
  {
    if OfSpill(step) { RetryStep(c, s, step); } else { OutsideStep(c, s, step); }
  }

  /** The sender whose place in its call a step moves, if any. */
  function Moves(s: State, step: Step): Option<TaskId> {
    match step
    case Act(_, _) => if s.queue != [] && s.queue[0].Staging? then Some(s.queue[0].task) else None
    case Submit(t, _) => Some(t)
    case Stage(t) => Some(t)
    case AnswerSent(t) => Some(t)
    case AnswerRetry(t) => Some(t)
    case AnswerRefused(t) => Some(t)
    case RequestFlush(t) => Some(t)
    case Write(t, _) => Some(t)
    case WriteFails(t) => Some(t)
    case Measure(t) => Some(t)
    case MeasureFails(t) => Some(t)
    case Add(t) => Some(t)
    case Load(t) => Some(t)
    case Swap(t) => Some(t)
    case Rename(t) => Some(t)
    case RenameFails(t) => Some(t)
    case Emit(t) => Some(t)
    case _ => None
  }

  lemma OneTaskMoves(c: Config, s: State, step: Step)
    requires Enabled(c, s, step)
    ensures var s' := Apply(c, s, step);
            match Moves(s, step)
            case None => s'.tasks == s.tasks
            case Some(t) => t in s'.tasks && s'.tasks == s.tasks[t := s'.tasks[t]]
  {
  }

  // ----- the senders and the actor, outside `retry`

  /** Neither writing a retry file nor waiting to charge or rename it. */
  predicate Plain(pc: Pc) { !pc.Written? && !pc.Reserving? && !pc.Swapping? && !pc.Renaming? }

  /** Outside `retry` and its reader nothing on disk changes, nor what is known of it. */
  predicate DiskStays(s: State, s': State) {
    && s'.visible == s.visible && s'.diskUsed == s.diskUsed && s'.waiting == s.waiting && s'.ledger == s.ledger
    && (s'.consumer == s.consumer || (s.consumer.Holding? && s'.consumer.Idle?))
  }

  lemma OutsideStep(c: Config, s: State, step: Step)
    requires Enabled(c, s, step) && !OfConsumer(step) && !OfSpill(step)
    ensures DiskStays(s, Apply(c, s, step))
  {
  }

  /** At most one sender moves, and stays outside `retry`. */
  predicate OneMoves(tasks: map<TaskId, Task>, tasks': map<TaskId, Task>, mover: Option<TaskId>) {
    match mover
    case None => tasks' == tasks
    case Some(t) =>
      t in tasks' && tasks' == tasks[t := tasks'[t]] && Plain(tasks'[t].pc) && (t in tasks ==> Plain(tasks[t].pc))
  }

  lemma OutsideMoves(c: Config, s: State, step: Step)
    requires TidyQueue(s) && Enabled(c, s, step) && !OfConsumer(step) && !OfSpill(step)
    ensures OneMoves(s.tasks, Apply(c, s, step).tasks, Moves(s, step))
  {
    OneTaskMoves(c, s, step);
  }

  // ----- the steps inside `retry`

  /**
   What a step inside `retry` does to its sender `t`: it moves on, the batch is
   given up, or the retry file comes into view; and to the rest, nothing.
   */
  predicate RetryOutcome(s: State, s': State, t: TaskId)
    requires t in s.tasks
  {
    var b := s.tasks[t].batch;
    && s'.queue == s.queue && s'.books.owner == s.books.owner && s'.books.acked == s.books.acked && s'.actor == s.actor
    && s'.waiting == s.waiting && s'.consumer == s.consumer
    && !s.tasks[t].pc.Answered? && !s.tasks[t].pc.Finished?
    && t in s'.tasks && s'.tasks == s.tasks[t := Task(b, s'.tasks[t].pc)]
    && match s'.tasks[t].pc
       case Finished =>
         || (s'.visible == s.visible && s'.books.place == s.books.place[b := Nowhere] && s'.books.dropped == s.books.dropped + {b})
         || (t in s'.visible && s'.visible == s.visible[t := File(b, s'.visible[t].size)]
             && s'.books.place == s.books.place[b := AtFile(t)] && s'.books.dropped == s.books.dropped)
       case Starting => false
       case AwaitingKey => false
       case Sending(_) => false
       case Answered(_) => false
       case _ => s'.visible == s.visible && s'.books.place == s.books.place && s'.books.dropped == s.books.dropped
  }

  lemma RetryStep(c: Config, s: State, step: Step)
    requires Enabled(c, s, step) && OfSpill(step)
    ensures RetryOutcome(s, Apply(c, s, step), step.t)
  {
    if step.Swap? { SwapStep(s, step.t); } else if step.Load? { LoadStep(c, s, step); } else { FileStep(c, s, step); }
  }

  lemma SwapStep(s: State, t: TaskId)
    requires t in s.tasks && s.tasks[t].pc.Swapping?
    ensures RetryOutcome(s, Swapped(s, t), t)
  {
  }

  lemma LoadStep(c: Config, s: State, step: Step)
    requires Enabled(c, s, step) && step.Load?
    ensures RetryOutcome(s, Apply(c, s, step), step.t)
  {
  }

  lemma FileStep(c: Config, s: State, step: Step)
    requires Enabled(c, s, step) && OfSpill(step) && !step.Load? && !step.Swap?
    ensures RetryOutcome(s, Apply(c, s, step), step.t)
  {
  }

  predicate SameDisk(s: State, s': State) {
    s'.visible == s.visible && s'.diskUsed == s.diskUsed && s'.ledger == s.ledger
  }

  /** How a sender inside `retry` gets from one place to the next, and what that does to the disk and the counter. */
  predicate ChargeOutcome(c: Config, s: State, s': State, t: TaskId)
    requires t in s.tasks && t in s'.tasks
  {
    var p := s.tasks[t].pc;
    match s'.tasks[t].pc
    case Written(size) =>
      && p.Spilling? && s'.visible == s.visible && s'.diskUsed == s.diskUsed
      && s'.ledger == s.ledger.(written := s.ledger.written + size) && s'.ledger.written <= U64_MAX
    case Reserving(size, charge, _) =>
      && SameDisk(s, s')
      && (|| (p.Written? && size == p.size && (charge == size || (charge == 0 && !c.sizedAtWrite)))
          || (p.Swapping? && size == p.size && charge == p.charge))
    case Swapping(size, charge, _, seen) =>
      && SameDisk(s, s')
      && p.Reserving? && size == p.size && charge == p.charge && seen == s.diskUsed
      && c.limit.Some? && Wrap(seen + charge) <= c.limit.value
    case Renaming(size, charge) =>
      && ((p.Reserving? && c.limit.None?) || (p.Swapping? && p.seen == s.diskUsed)) && size == p.size && charge == p.charge
      && s'.visible == s.visible && s'.diskUsed == Wrap(s.diskUsed + charge)
      && s'.ledger == s.ledger.(net := s.ledger.net + charge)
    case Finished =>
      if p.Renaming? then
        && s'.diskUsed == s.diskUsed
        && (|| (s'.visible == s.visible[t := File(s.tasks[t].batch, p.size)]
                && s'.ledger == s.ledger.(uncharged := s.ledger.uncharged + p.size - p.charge))
            || (!c.ioOk && s'.visible == s.visible && s'.ledger == s.ledger.(leaked := s.ledger.leaked + p.charge)))
      else SameDisk(s, s')
    case _ => false
  }

  lemma ChargeStep(c: Config, s: State, step: Step)
    requires Enabled(c, s, step) && OfSpill(step)
    ensures step.t in Apply(c, s, step).tasks && ChargeOutcome(c, s, Apply(c, s, step), step.t)
  {
    if step.Swap? || step.Load? { ReserveStep(c, s, step); } else { WriteOrRenameStep(c, s, step); }
  }

  lemma ReserveStep(c: Config, s: State, step: Step)
    requires Enabled(c, s, step) && (step.Swap? || step.Load?)
    ensures step.t in Apply(c, s, step).tasks && ChargeOutcome(c, s, Apply(c, s, step), step.t)
  {
  }

  lemma WriteOrRenameStep(c: Config, s: State, step: Step)
    requires Enabled(c, s, step) && OfSpill(step) && !step.Swap? && !step.Load?
    ensures step.t in Apply(c, s, step).tasks && ChargeOutcome(c, s, Apply(c, s, step), step.t)
  {
  }

  // ----- the actor

  lemma ActorStep(c: Config, s: State, step: Step)
    requires Enabled(c, s, step)
    ensures Apply(c, s, step).actor ==
            if step.Act? then OffsetActor.Step(s.actor, ActorInput(s.queue[0], step.handleOk, step.writeOk)) else s.actor
  {
    if OfSpill(step) { RetryStep(c, s, step); } else { ActorStepOutside(c, s, step); }
  }

  lemma ActorStepOutside(c: Config, s: State, step: Step)
    requires Enabled(c, s, step) && !OfSpill(step)
    ensures Apply(c, s, step).actor ==
            if step.Act? then OffsetActor.Step(s.actor, ActorInput(s.queue[0], step.handleOk, step.writeOk)) else s.actor
  {
  }

  // ----- the reader of the retry directory

  /** A removal takes a file out of view, the step after it subtracts; the other steps change nothing on disk. */
  predicate ReaderOutcome(s: State, s': State) {
    && s'.tasks == s.tasks && s'.queue == s.queue && s'.actor == s.actor
    && if s'.consumer.Removed? then
         && s.consumer.Measured? && s'.consumer.size == s.consumer.size && s'.diskUsed == s.diskUsed
         && s'.visible == s.visible - {s.consumer.name}
         && s'.ledger == s.ledger.(overcounted := s.ledger.overcounted + SizeOf(s.visible, s.consumer.name) - s.consumer.size)
       else if s.consumer.Removed? then
         && s'.visible == s.visible && s'.diskUsed == Wrap(s.diskUsed - s.consumer.size)
         && s'.ledger == s.ledger.(net := s.ledger.net - s.consumer.size)
       else SameDisk(s, s')
  }

  lemma ReaderStep(c: Config, s: State, step: Step)
    requires Enabled(c, s, step) && OfConsumer(step)
    ensures ReaderOutcome(s, Apply(c, s, step))
  {
  }

  lemma TidyInit(c: Config, s: State)
    requires Init(c, s)
    ensures Tidy(s)
  {
  }

  lemma {:induction false} RunIsTidy(c: Config, states: seq<State>, steps: seq<Step>, n: nat)
    requires IsRun(c, states, steps) && n <= |steps|
    ensures Tidy(states[n])
  {
    if n == 0 {
      TidyInit(c, states[0]);
    } else {
      RunIsTidy(c, states, steps, n - 1);
      TidyStep(c, states[n - 1], steps[n - 1]);
    }
  }
}
