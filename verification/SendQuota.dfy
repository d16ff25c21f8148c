/** The quota counter under every interleaving (common/http/src/retry.rs:174-194 and 249-374). */
module SendQuota {
  import opened Prelude
  import opened Spans
  import opened SendProtocol
  import opened SendFrames

  // ----- what is known of the counter in every reachable state

  /** A charge is the size of the file, or 0 where that could not be read. */
  predicate ChargeOk(c: Config, pc: Pc) {
    pc.Reserving? || pc.Swapping? || pc.Renaming? ==> pc.charge <= pc.size && (c.sizedAtWrite ==> pc.charge == pc.size)
  }

  ghost predicate TaskCharges(c: Config, s: State) {
    forall t :: t in s.tasks ==> ChargeOk(c, s.tasks[t].pc)
  }

  /** So is what the reader is about to subtract. */
  predicate ReadSize(c: Config, s: State) {
    s.consumer.Measured? ==>
      && s.consumer.size <= SizeOf(s.visible, s.consumer.name)
      && (c.sizedAtRead ==> s.consumer.size == SizeOf(s.visible, s.consumer.name))
  }

  /** What the counter misses, and what it keeps too much of, are there only where sizes could not be read. */
  predicate LedgerOk(c: Config, l: Ledger) {
    && l.uncharged >= 0 && (c.sizedAtStart && c.sizedAtWrite ==> l.uncharged == 0)
    && l.overcounted >= 0 && (c.sizedAtRead ==> l.overcounted == 0)
  }

  /**
   What was added less what was subtracted, and what was never charged, are what
   the counter stands for, the reservations of failed renames, and the removed
   bytes that were never subtracted.
   */
  ghost predicate Accounted(s: State) {
    s.ledger.net + s.ledger.uncharged == Held(s) + s.ledger.leaked + s.ledger.overcounted
  }

  /** A file that is written and not yet charged. */
  function Unpaid(pc: Pc): nat {
    if pc.Written? || pc.Reserving? || pc.Swapping? then pc.size else 0
  }

  /** The part of a file not yet in view that is not, or will not be, charged. */
  function Owing(pc: Pc): nat {
    if pc.Written? then pc.size
    else if (pc.Reserving? || pc.Swapping? || pc.Renaming?) && pc.charge <= pc.size then pc.size - pc.charge
    else 0
  }

  /** No more is charged, and no more is missing, than was ever written. */
  ghost predicate Budget(s: State) {
    && s.ledger.net + Total(Weights(Unpaid, s.tasks)) <= s.ledger.written <= U64_MAX
    && s.ledger.uncharged + Total(Weights(Owing, s.tasks)) <= s.ledger.written
  }

  ghost predicate Exact(c: Config, s: State) {
    && Tidy(s) && TaskCharges(c, s) && ReadSize(c, s) && LedgerOk(c, s.ledger)
    && Accounted(s) && Budget(s) && s.diskUsed == Wrap(s.ledger.net)
  }

  // ----- sums

  lemma WeightMove(weigh: Pc -> nat, tasks: map<TaskId, Task>, t: TaskId, task: Task)
    ensures Total(Weights(weigh, tasks[t := task])) ==
            Total(Weights(weigh, tasks)) + weigh(task.pc) - (if t in tasks then weigh(tasks[t].pc) else 0)
  {
    assert Weights(weigh, tasks[t := task]) == Weights(weigh, tasks)[t := weigh(task.pc)];
    TotalUpdate(Weights(weigh, tasks), t, weigh(task.pc));
  }

  lemma PlainMove(weigh: Pc -> nat, tasks: map<TaskId, Task>, tasks': map<TaskId, Task>, mover: Option<TaskId>)
    requires OneMoves(tasks, tasks', mover)
    requires forall pc :: Plain(pc) ==> weigh(pc) == 0
    ensures Total(Weights(weigh, tasks')) == Total(Weights(weigh, tasks))
  {
    match mover
    case None =>
    case Some(t) => WeightMove(weigh, tasks, t, tasks'[t]);
  }

  lemma OneTaskWeighs(weigh: Pc -> nat, tasks: map<TaskId, Task>, t: TaskId)
    requires t in tasks
    ensures weigh(tasks[t].pc) <= Total(Weights(weigh, tasks))
  {
    TotalRemove(Weights(weigh, tasks), t);
  }

  lemma FileAppears(files: map<Name, File>, n: Name, file: File)
    requires n !in files
    ensures Total(Sizes(files[n := file])) == Total(Sizes(files)) + file.size
  {
    assert Sizes(files[n := file]) == Sizes(files)[n := file.size];
    TotalUpdate(Sizes(files), n, file.size);
  }

  lemma FileVanishes(files: map<Name, File>, n: Name)
    requires n in files
    ensures Total(Sizes(files - {n})) == Total(Sizes(files)) - files[n].size
  {
    assert Sizes(files - {n}) == Sizes(files) - {n};
    TotalRemove(Sizes(files), n);
  }

  /** Wrapping in between makes no difference. */
  lemma WrapAgain(x: int, y: int)
    ensures Wrap(Wrap(x) + y) == Wrap(x + y)
  {
  }

  lemma WrapSmall(x: int)
    requires 0 <= x <= U64_MAX
    ensures Wrap(x) == x
  {
  }

  // ----- a step outside `retry`

  lemma OutsideExact(c: Config, s: State, s': State, mover: Option<TaskId>)
    requires Exact(c, s) && Tidy(s') && DiskStays(s, s') && OneMoves(s.tasks, s'.tasks, mover)
    ensures Exact(c, s')
  {
    PlainMove(Reservation, s.tasks, s'.tasks, mover);
    PlainMove(Unpaid, s.tasks, s'.tasks, mover);
    PlainMove(Owing, s.tasks, s'.tasks, mover);
  }

  // ----- a step of the reader

  lemma ReadSizeByReader(c: Config, s: State, step: Step)
    requires ReadSize(c, s) && Enabled(c, s, step) && OfConsumer(step)
    ensures ReadSize(c, Apply(c, s, step))
  {
  }

  lemma ReaderExact(c: Config, s: State, s': State)
    requires Exact(c, s) && Tidy(s') && ReadSize(c, s') && ReaderOutcome(s, s')
    ensures Exact(c, s')
  {
    if s'.consumer.Removed? {
      FileVanishes(s.visible, s.consumer.name);
    } else if s.consumer.Removed? {
      WrapAgain(s.ledger.net, 0 - s.consumer.size);
    }
  }

  // ----- a step inside `retry`

  lemma ChargesKept(c: Config, s: State, s': State, t: TaskId)
    requires t in s.tasks && RetryOutcome(s, s', t) && ChargeOutcome(c, s, s', t)
    requires TaskCharges(c, s)
    ensures TaskCharges(c, s')
  {
    assert ChargeOk(c, s.tasks[t].pc);
    assert ChargeOk(c, s'.tasks[t].pc);
  }

  lemma ReadSizeKept(c: Config, s: State, s': State, t: TaskId)
    requires Tidy(s) && ReadSize(c, s)
    requires t in s.tasks && RetryOutcome(s, s', t) && ChargeOutcome(c, s, s', t)
    ensures ReadSize(c, s')
  {
  }

  lemma LedgerKept(c: Config, s: State, s': State, t: TaskId)
    requires TaskCharges(c, s) && LedgerOk(c, s.ledger)
    requires t in s.tasks && t in s'.tasks && ChargeOutcome(c, s, s', t)
    ensures LedgerOk(c, s'.ledger)
  {
    assert ChargeOk(c, s.tasks[t].pc);
  }

  lemma AccountedKept(c: Config, s: State, s': State, t: TaskId)
    requires Tidy(s) && Accounted(s)
    requires t in s.tasks && RetryOutcome(s, s', t) && ChargeOutcome(c, s, s', t)
    ensures Accounted(s')
  {
    WeightMove(Reservation, s.tasks, t, s'.tasks[t]);
    if s.tasks[t].pc.Renaming? { FileAppears(s.visible, t, File(s.tasks[t].batch, s.tasks[t].pc.size)); }
  }

  lemma BudgetKept(c: Config, s: State, s': State, t: TaskId)
    requires TaskCharges(c, s) && Budget(s)
    requires t in s.tasks && RetryOutcome(s, s', t) && ChargeOutcome(c, s, s', t)
    ensures Budget(s')
  {
    assert ChargeOk(c, s.tasks[t].pc);
    WeightMove(Unpaid, s.tasks, t, s'.tasks[t]);
    WeightMove(Owing, s.tasks, t, s'.tasks[t]);
  }

  lemma CounterKept(c: Config, s: State, s': State, t: TaskId)
    requires s.diskUsed == Wrap(s.ledger.net)
    requires t in s.tasks && t in s'.tasks && ChargeOutcome(c, s, s', t)
    ensures s'.diskUsed == Wrap(s'.ledger.net)
  {
    if s'.tasks[t].pc.Renaming? { WrapAgain(s.ledger.net, s'.tasks[t].pc.charge); }
  }

  lemma RetryExact(c: Config, s: State, step: Step, s': State)
    requires Exact(c, s) && Enabled(c, s, step) && OfSpill(step) && s' == Apply(c, s, step)
    ensures Exact(c, s')
  {
    var t := step.t;
    TidyStep(c, s, step);
    RetryStep(c, s, step);
    ChargeStep(c, s, step);
    ChargesKept(c, s, s', t);
    ReadSizeKept(c, s, s', t);
    LedgerKept(c, s, s', t);
    AccountedKept(c, s, s', t);
    BudgetKept(c, s, s', t);
    CounterKept(c, s, s', t);
  }

  // ----- runs

  lemma ExactStep(c: Config, s: State, step: Step, s': State)
    requires Exact(c, s) && Enabled(c, s, step) && s' == Apply(c, s, step)
    ensures Exact(c, s')
  {
    TidyStep(c, s, step);
    if OfConsumer(step) {
      ReaderStep(c, s, step);
      ReadSizeByReader(c, s, step);
      ReaderExact(c, s, s');
    } else if OfSpill(step) {
      RetryExact(c, s, step, s');
    } else {
      OutsideStep(c, s, step);
      OutsideMoves(c, s, step);
      OutsideExact(c, s, s', Moves(s, step));
    }
  }

  lemma {:induction false} PartWeighsLess(files: map<Name, File>, part: set<Name>)
    requires part <= files.Keys
    ensures Total(Sizes(files - part)) <= Total(Sizes(files))
    decreases |part|
  {
    if part != {} {
      var n :| n in part;
      FileVanishes(files, n);
      PartWeighsLess(files - {n}, part - {n});
      assert files - part == files - {n} - (part - {n});
    } else {
      assert files - part == files;
    }
  }

  lemma CountedMeans(c: Config, s: State)
    requires Counted(c, s)
    ensures s.diskUsed <= Total(Sizes(s.visible)) && (c.sizedAtStart ==> s.diskUsed == Total(Sizes(s.visible)))
  {
    var unread :| unread <= s.visible.Keys && (c.sizedAtStart ==> unread == {}) && s.diskUsed == Total(Sizes(s.visible - unread));
    PartWeighsLess(s.visible, unread);
    if unread == {} { assert s.visible - unread == s.visible; }
  }

  lemma ExactInit(c: Config, s: State)
    requires Init(c, s)
    ensures Exact(c, s)
  {
    TidyInit(c, s);
    CountedMeans(c, s);
    WrapSmall(s.diskUsed);
    assert Weights(Reservation, s.tasks) == map[] && Weights(Unpaid, s.tasks) == map[] && Weights(Owing, s.tasks) == map[];
  }

  lemma NotWrapped(c: Config, s: State)
    requires Exact(c, s) && c.sizedAtStart && c.sizedAtWrite
    ensures s.diskUsed == s.ledger.net == Held(s) + s.ledger.leaked + s.ledger.overcounted
  {
    WrapSmall(s.ledger.net);
  }

  /**
   In every reachable state the counter is accounted for to the byte, modulo 2^64.
   Where the sizes of leftover and of newly written files could be read it has not
   wrapped.
   */
  lemma {:induction false} CounterIsExact(c: Config, states: seq<State>, steps: seq<Step>, n: nat)
    requires IsRun(c, states, steps) && n <= |steps|
    ensures Exact(c, states[n])
    ensures var s := states[n];
            c.sizedAtStart && c.sizedAtWrite ==> s.diskUsed == s.ledger.net == Held(s) + s.ledger.leaked + s.ledger.overcounted
  {
    if n == 0 {
      ExactInit(c, states[0]);
    } else {
      CounterIsExact(c, states, steps, n - 1);
      ExactStep(c, states[n - 1], steps[n - 1], states[n]);
    }
    if c.sizedAtStart && c.sizedAtWrite { NotWrapped(c, states[n]); }
  }

  // ----- the limit

  /** Whoever is about to swap has found room for its charge. */
  ghost predicate WithinLimit(c: Config, s: State) {
    forall t :: t in s.tasks && s.tasks[t].pc.Swapping? ==>
      c.limit.Some? && Wrap(s.tasks[t].pc.seen + s.tasks[t].pc.charge) <= c.limit.value
  }

  lemma WithinLimitStep(c: Config, s: State, step: Step, s': State)
    requires Tidy(s) && WithinLimit(c, s) && Enabled(c, s, step) && s' == Apply(c, s, step)
    ensures WithinLimit(c, s')
  {
    if OfConsumer(step) {
      ReaderStep(c, s, step);
    } else if OfSpill(step) {
      RetryStep(c, s, step);
      ChargeStep(c, s, step);
      WithinLimitInRetry(c, s, s', step.t);
    } else {
      OutsideMoves(c, s, step);
      WithinLimitOutside(c, s, s', Moves(s, step));
    }
  }

  lemma WithinLimitInRetry(c: Config, s: State, s': State, t: TaskId)
    requires WithinLimit(c, s) && t in s.tasks && RetryOutcome(s, s', t) && ChargeOutcome(c, s, s', t)
    ensures WithinLimit(c, s')
  {
  }

  lemma WithinLimitOutside(c: Config, s: State, s': State, mover: Option<TaskId>)
    requires WithinLimit(c, s) && OneMoves(s.tasks, s'.tasks, mover)
    ensures WithinLimit(c, s')
  {
  }

  /** Before wrapping, only a charge that fits makes the sum grow. */
  lemma NetStep(c: Config, s: State, step: Step, s': State)
    requires WithinLimit(c, s) && c.limit.Some? && Enabled(c, s, step) && s' == Apply(c, s, step)
    requires s'.diskUsed == Wrap(s'.ledger.net) && s'.ledger.net <= U64_MAX
    ensures s'.ledger.net <= Max(s.ledger.net, c.limit.value)
  {
    if OfConsumer(step) {
      ReaderStep(c, s, step);
    } else if OfSpill(step) {
      ChargeStep(c, s, step);
      NetInRetry(c, s, s', step.t);
    } else {
      OutsideStep(c, s, step);
    }
  }

  lemma NetInRetry(c: Config, s: State, s': State, t: TaskId)
    requires WithinLimit(c, s) && c.limit.Some?
    requires s'.diskUsed == Wrap(s'.ledger.net) && s'.ledger.net <= U64_MAX
    requires t in s.tasks && t in s'.tasks && ChargeOutcome(c, s, s', t)
    ensures s'.ledger.net <= Max(s.ledger.net, c.limit.value)
  {
    if s'.tasks[t].pc.Renaming? && s'.ledger.net >= 0 { WrapSmall(s'.ledger.net); }
  }

  /** With a limit, what was added less what was subtracted never grows beyond it, whatever fails. */
  lemma {:induction false} NetIsBounded(c: Config, states: seq<State>, steps: seq<Step>, n: nat)
    requires IsRun(c, states, steps) && n <= |steps| && c.limit.Some?
    ensures WithinLimit(c, states[n])
    ensures states[n].ledger.net <= Max(states[0].diskUsed, c.limit.value)
  {
    if n > 0 {
      NetIsBounded(c, states, steps, n - 1);
      CounterIsExact(c, states, steps, n - 1);
      CounterIsExact(c, states, steps, n);
      WithinLimitStep(c, states[n - 1], steps[n - 1], states[n]);
      NetStep(c, states[n - 1], steps[n - 1], states[n]);
    }
  }

  /** So the files in view outgrow the quota by no more than the bytes that could not be counted. */
  lemma VisibleFilesBounded(c: Config, states: seq<State>, steps: seq<Step>, n: nat)
    requires IsRun(c, states, steps) && n <= |steps| && c.limit.Some?
    ensures Total(Sizes(states[n].visible)) <= Max(states[0].diskUsed, c.limit.value) + states[n].ledger.uncharged
    ensures c.sizedAtStart && c.sizedAtWrite ==>
              Total(Sizes(states[n].visible)) <= Max(Total(Sizes(states[0].visible)), c.limit.value)
  {
    CounterIsExact(c, states, steps, 0);
    CounterIsExact(c, states, steps, n);
    NetIsBounded(c, states, steps, n);
  }

  /** What the check against the limit lets through, by what was added to the counter less what was subtracted. */
  predicate Granted(net: int, charge: nat, limit: Word) {
    var missing := 0 - net;
    if missing <= charge then charge - missing <= limit else U64_MAX + 1 - (missing - charge) <= limit
  }

  /**
   What `retry` makes of a charge, once the size of its file has been looked at: it
   compares with the limit what the counter would be. A counter that has wrapped is
   short of 2^64 by what is missing; then it grants charges of that and more as if
   the counter were negative, and smaller ones only where the limit is as near to 2^64.
   */
  lemma LoadGrantsExactly(c: Config, s: State, step: Step, s': State)
    requires Exact(c, s) && Enabled(c, s, step) && step.Load? && s' == Apply(c, s, step)
    ensures step.t in s'.tasks && (s'.tasks[step.t].pc.Swapping? <==> Granted(s.ledger.net, s.tasks[step.t].pc.charge, c.limit.value))
  {
    LoadGrants(c, s, step, s');
    ChargeInRange(c, s, step.t);
    SumWithLimit(s.diskUsed, s.ledger.net, s.tasks[step.t].pc.charge, c.limit.value);
  }

  lemma SumWithLimit(used: Word, net: int, charge: nat, limit: Word)
    requires used == Wrap(net) && 0 - U64_MAX <= net + charge <= U64_MAX
    ensures Wrap(used + charge) <= limit <==> Granted(net, charge, limit)
  {
    WrapAgain(net, charge);
    WrapsOnce(net + charge);
  }

  lemma LoadGrants(c: Config, s: State, step: Step, s': State)
    requires Enabled(c, s, step) && step.Load? && s' == Apply(c, s, step)
    ensures step.t in s'.tasks && (s'.tasks[step.t].pc.Swapping? <==> Wrap(s.diskUsed + s.tasks[step.t].pc.charge) <= c.limit.value)
  {
  }

  lemma ChargeInRange(c: Config, s: State, t: TaskId)
    requires Exact(c, s) && t in s.tasks && s.tasks[t].pc.Reserving?
    ensures 0 - U64_MAX <= s.ledger.net + s.tasks[t].pc.charge <= U64_MAX
  {
    assert ChargeOk(c, s.tasks[t].pc);
    OneTaskWeighs(Unpaid, s.tasks, t);
  }

  lemma WrapsOnce(x: int)
    requires 0 - U64_MAX <= x <= U64_MAX
    ensures Wrap(x) == if x >= 0 then x else U64_MAX + 1 + x
  {
  }

  // ----- what is never put right

  lemma RunReadsSizes(c: Config, states: seq<State>, steps: seq<Step>, n: nat)
    requires IsRun(c, states, steps) && n <= |steps|
    ensures ReadSize(c, states[n])
  {
    CounterIsExact(c, states, steps, n);
  }

  /** What failed renames leave on the counter, and what unreadable removals do, is never taken off it. */
  lemma {:induction false} ExcessStays(c: Config, states: seq<State>, steps: seq<Step>, m: nat, n: nat)
    requires IsRun(c, states, steps) && m <= n <= |steps|
    ensures states[m].ledger.leaked <= states[n].ledger.leaked
    ensures states[m].ledger.overcounted <= states[n].ledger.overcounted
    decreases n
  {
    if m < n {
      ExcessStays(c, states, steps, m, n - 1);
      RunReadsSizes(c, states, steps, n - 1);
      ExcessGrows(c, states[n - 1], steps[n - 1], states[n]);
    }
  }

  /** So a counter that has not wrapped stays too high by that much for ever. */
  lemma TooHighForEver(c: Config, states: seq<State>, steps: seq<Step>, m: nat, n: nat)
    requires IsRun(c, states, steps) && m <= n <= |steps| && c.sizedAtStart && c.sizedAtWrite
    ensures states[n].diskUsed - Held(states[n]) >= states[m].diskUsed - Held(states[m])
  {
    ExcessStays(c, states, steps, m, n);
    CounterIsExact(c, states, steps, m);
    CounterIsExact(c, states, steps, n);
  }

  lemma ExcessGrows(c: Config, s: State, step: Step, s': State)
    requires ReadSize(c, s) && Enabled(c, s, step) && s' == Apply(c, s, step)
    ensures s.ledger.leaked <= s'.ledger.leaked && s.ledger.overcounted <= s'.ledger.overcounted
    ensures c.ioOk ==> s'.ledger.leaked == s.ledger.leaked
  {
    if OfConsumer(step) { ReaderStep(c, s, step); }
    else if OfSpill(step) { ChargeStep(c, s, step); }
    else { OutsideStep(c, s, step); }
  }

  lemma {:induction false} NothingLeaks(c: Config, states: seq<State>, steps: seq<Step>, n: nat)
    requires IsRun(c, states, steps) && n <= |steps| && c.ioOk
    ensures states[n].ledger.leaked == 0
  {
    if n > 0 {
      NothingLeaks(c, states, steps, n - 1);
      RunReadsSizes(c, states, steps, n - 1);
      ExcessGrows(c, states[n - 1], steps[n - 1], states[n]);
    }
  }
}
