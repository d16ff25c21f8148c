/**
 For which environments the quota counter can be relied on, and for which none of
 the batches is ever given up (common/http/src/retry.rs:174-194 and 249-374). Each
 condition is necessary and sufficient; where it fails a run shows it.
 */
module SendLimits {
  import opened Prelude
  import opened Spans
  import opened SendProtocol
  import opened SendFrames
  import opened SendQuota
  import opened SendDelivery
  import OffsetActor

  // ----- what holds at the end of every run, and so at every point of every run

  /** Some run starts with `first` and leads to `s`. */
  ghost predicate Reaches(c: Config, first: State, s: State) {
    exists states: seq<State>, steps: seq<Step> :: IsRun(c, states, steps) && states[0] == first && states[|steps|] == s
  }

  /** The reader never subtracts more than is on the counter. */
  ghost predicate NeverUnderflows(c: Config) {
    forall first, s :: Reaches(c, first, s) ==> s.diskUsed >= Unsubtracted(s.consumer)
  }

  ghost predicate NeverTooLow(c: Config) {
    forall first, s :: Reaches(c, first, s) ==> s.diskUsed >= Held(s)
  }

  ghost predicate NeverTooHigh(c: Config) {
    forall first, s :: Reaches(c, first, s) ==> s.diskUsed <= Held(s)
  }

  ghost predicate NeverPastLimit(c: Config)
    requires c.limit.Some?
  {
    forall first, s :: Reaches(c, first, s) ==> s.diskUsed <= Max(first.diskUsed, c.limit.value)
  }

  ghost predicate NeverDrops(c: Config) {
    forall first, s :: Reaches(c, first, s) ==> s.books.dropped == {}
  }

  lemma ReachedExact(c: Config, first: State, s: State)
    requires Reaches(c, first, s)
    ensures Exact(c, s)
    ensures c.sizedAtStart && c.sizedAtWrite ==> s.diskUsed == s.ledger.net == Held(s) + s.ledger.leaked + s.ledger.overcounted
    ensures c.limit.Some? ==> s.ledger.net <= Max(first.diskUsed, c.limit.value)
    ensures c.ioOk ==> s.ledger.leaked == 0
    ensures c.limit == Some(0) && c.sizedAtStart && c.sizedAtWrite ==> s.ledger.leaked == 0
  {
    var states: seq<State>, steps: seq<Step> :| IsRun(c, states, steps) && states[0] == first && states[|steps|] == s;
    CounterIsExact(c, states, steps, |steps|);
    if c.limit.Some? { NetIsBounded(c, states, steps, |steps|); }
    if c.ioOk { NothingLeaks(c, states, steps, |steps|); }
    NothingToLeak(c, states, steps, |steps|);
  }

  // ----- the conditions

  /**
   The unsigned subtraction is safe, and the counter never stands for less than is
   there, exactly when the sizes of leftover files and of files just written can be
   read, with or without a limit.
   */
  lemma UnderflowsExactly(c: Config)
    ensures NeverUnderflows(c) <==> c.sizedAtStart && c.sizedAtWrite
    ensures NeverTooLow(c) <==> c.sizedAtStart && c.sizedAtWrite
  {
    if c.sizedAtStart && c.sizedAtWrite {
      forall first, s | Reaches(c, first, s) ensures s.diskUsed >= Held(s) { ReachedExact(c, first, s); }
    } else {
      var first, s := Underflow(c, 1);
    }
  }

  /** With a limit the counter stays within it exactly then, unless every word is within the limit. */
  lemma PastLimitExactly(c: Config)
    requires c.limit.Some?
    ensures NeverPastLimit(c) <==> c.limit == Some(U64_MAX) || (c.sizedAtStart && c.sizedAtWrite)
  {
    if c.sizedAtStart && c.sizedAtWrite {
      forall first, s | Reaches(c, first, s) ensures s.diskUsed <= Max(first.diskUsed, c.limit.value) { ReachedExact(c, first, s); }
    } else if c.limit.value < U64_MAX {
      var first, s := AfterWrap(c, 1);
    }
  }

  /**
   The counter never stands for more than is there exactly when all sizes can be
   read and no rename fails, or no rename can fail with a charge, for the limit is 0.
   */
  lemma TooHighExactly(c: Config)
    ensures NeverTooHigh(c) <==> c.sizedAtStart && c.sizedAtWrite && c.sizedAtRead && (c.ioOk || c.limit == Some(0))
  {
    if !(c.sizedAtStart && c.sizedAtWrite) {
      var first, s := AfterWrap(c, 1);
    } else if !c.sizedAtRead {
      var first, s := RemovedUnread(c, 1);
    } else if !c.ioOk && c.limit != Some(0) {
      var first, s := FailedRename(c, 1);
    } else {
      forall first, s | Reaches(c, first, s) ensures s.diskUsed <= Held(s) { ReachedExact(c, first, s); }
    }
  }

  /** No batch is ever given up exactly when there is no limit and neither files nor requests fail for good. */
  lemma DropsExactly(c: Config)
    ensures NeverDrops(c) <==> c.limit.None? && c.ioOk && c.statusOk
  {
    if !c.statusOk || !c.ioOk {
      var first, s := RefusedOrUnwritten(c);
    } else if c.limit.Some? && c.limit.value < U64_MAX {
      var first, s := OverLimit(c);
    } else if c.limit.Some? {
      var first, s := Outrun(c);
    } else {
      forall first, s | Reaches(c, first, s) ensures s.books.dropped == {} {
        var states: seq<State>, steps: seq<Step> :| IsRun(c, states, steps) && states[0] == first && states[|steps|] == s;
        NothingDropped(c, states, steps, |steps|);
      }
    }
  }

  // ----- a limit of 0

  /** Only empty files get past a limit of 0, and so nothing leaks. */
  ghost predicate ChargesNothing(s: State) {
    && s.ledger.leaked == 0
    && forall t :: t in s.tasks && (s.tasks[t].pc.Swapping? || s.tasks[t].pc.Renaming?) ==> s.tasks[t].pc.charge == 0
  }

  lemma ChargesNothingStep(c: Config, s: State, step: Step, s': State)
    requires c.limit == Some(0) && c.sizedAtStart && c.sizedAtWrite
    requires Exact(c, s) && ChargesNothing(s) && Enabled(c, s, step) && s' == Apply(c, s, step)
    ensures ChargesNothing(s')
  {
    if OfConsumer(step) {
      ReaderStep(c, s, step);
    } else if OfSpill(step) {
      RetryStep(c, s, step);
      ChargeStep(c, s, step);
      ChargesNothingInRetry(c, s, s', step.t);
    } else {
      OutsideStep(c, s, step);
      OutsideMoves(c, s, step);
      ChargesNothingOutside(s, s', Moves(s, step));
    }
  }

  lemma ChargesNothingOutside(s: State, s': State, mover: Option<TaskId>)
    requires ChargesNothing(s) && s'.ledger == s.ledger && OneMoves(s.tasks, s'.tasks, mover)
    ensures ChargesNothing(s')
  {
  }

  lemma ChargesNothingInRetry(c: Config, s: State, s': State, t: TaskId)
    requires c.limit == Some(0) && c.sizedAtStart && c.sizedAtWrite
    requires Exact(c, s) && ChargesNothing(s)
    requires t in s.tasks && RetryOutcome(s, s', t) && ChargeOutcome(c, s, s', t)
    ensures ChargesNothing(s')
  {
    var pc := s'.tasks[t].pc;
    if pc.Swapping? {
      NotWrapped(c, s);
      assert ChargeOk(c, s.tasks[t].pc);
      OneTaskWeighs(Unpaid, s.tasks, t);
      WrapSmall(s.diskUsed + pc.charge);
    }
  }

  lemma {:induction false} NothingToLeak(c: Config, states: seq<State>, steps: seq<Step>, n: nat)
    requires IsRun(c, states, steps) && n <= |steps|
    ensures c.limit == Some(0) && c.sizedAtStart && c.sizedAtWrite ==> ChargesNothing(states[n])
  {
    if n > 0 && c.limit == Some(0) && c.sizedAtStart && c.sizedAtWrite {
      NothingToLeak(c, states, steps, n - 1);
      CounterIsExact(c, states, steps, n - 1);
      ChargesNothingStep(c, states[n - 1], steps[n - 1], states[n]);
    }
  }

  // ----- runs

  lemma NextReached(c: Config, first: State, s: State, step: Step) returns (s': State)
    requires Reaches(c, first, s) && Enabled(c, s, step)
    ensures Reaches(c, first, s') && s' == Apply(c, s, step)
  {
    var states: seq<State>, steps: seq<Step> :| IsRun(c, states, steps) && states[0] == first && states[|steps|] == s;
    s' := Apply(c, s, step);
    Longer(c, states, steps, step);
    assert (states + [s'])[0] == first && (states + [s'])[|steps + [step]|] == s';
  }

  lemma Longer(c: Config, states: seq<State>, steps: seq<Step>, step: Step)
    requires IsRun(c, states, steps) && Enabled(c, states[|steps|], step)
    ensures IsRun(c, states + [Apply(c, states[|steps|], step)], steps + [step])
  {
  }

  lemma StartReached(c: Config, first: State)
    requires Init(c, first)
    ensures Reaches(c, first, first)
  {
    var states, steps: seq<Step> := [first], [];
    assert IsRun(c, states, steps);
  }

  const LONE: Batch := Batch(0, None)

  /** One retry file of `size` bytes is in view, of which the counter knows `used`. */
  predicate OneFile(s: State, size: nat, used: Word) {
    && s.visible == map[0 := File(LONE, size)] && s.waiting == [] && s.consumer.Idle?
    && s.diskUsed == used && s.ledger.net == used && s.ledger.uncharged == size - used && s.ledger.overcounted == 0
  }

  lemma Leftover(c: Config, size: nat, used: Word) returns (first: State)
    requires size <= U64_MAX && (used == size || (used == 0 && !c.sizedAtStart))
    ensures Reaches(c, first, first) && OneFile(first, size, used)
  {
    var files: map<Name, File> := map[0 := File(LONE, size)];
    first := State(map[], [], OffsetActor.Initial(map[]), files, used, [], Idle,
                   Books(map[], {}, {}, map[LONE := AtFile(0)]), Opening(used, size));
    FileVanishes(files, 0);
    assert files - {0} == map[] && files - {} == files;
    assert Sizes(map[]) == map[];
    var unread: set<Name> := if used == size then {} else {0};
    assert Counted(c, first) by { assert unread <= files.Keys && first.diskUsed == Total(Sizes(files - unread)); }
    StartReached(c, first);
  }

  /** The one batch there is belongs to sender 0, and nothing is on disk. */
  predicate LoneSender(s: State, pc: Pc, used: Word) {
    && s.tasks == map[0 := Task(LONE, pc)]
    && s.visible == map[] && s.waiting == [] && s.consumer.Idle?
    && s.diskUsed == used && s.ledger.net == used
    && s.ledger.uncharged == 0 && s.ledger.leaked == 0 && s.ledger.overcounted == 0
    && s.books.place.Keys == {LONE}
  }

  ghost function NothingYet(): State {
    State(map[], [], OffsetActor.Initial(map[]), map[], 0, [], Idle, Books(map[], {}, {}, map[]), Opening(0, 0))
  }

  lemma StartsEmpty(c: Config)
    ensures Init(c, NothingYet())
  {
    var s := NothingYet();
    assert s.visible - {} == map[] && Sizes(map[]) == map[];
    assert Counted(c, s) by { assert {} <= s.visible.Keys; }
  }

  lemma Submitted(c: Config) returns (s: State)
    ensures Reaches(c, NothingYet(), s) && LoneSender(s, Sending(None), 0) && s.ledger.written == 0
  {
    StartsEmpty(c);
    StartReached(c, NothingYet());
    s := NextReached(c, NothingYet(), NothingYet(), Submit(0, LONE));
    s := NextReached(c, NothingYet(), s, Stage(0));
  }

  /** A batch is refused for now and its retry file, of `size` bytes, is written. */
  lemma RefusedAndWritten(c: Config, size: nat) returns (s: State)
    requires size <= U64_MAX
    ensures Reaches(c, NothingYet(), s) && LoneSender(s, Written(size), 0) && s.ledger.written == size
  {
    s := Submitted(c);
    s := NextReached(c, NothingYet(), s, AnswerRetry(0));
    s := NextReached(c, NothingYet(), s, Write(0, size));
  }

  lemma Reserved(c: Config, s0: State, size: nat, charge: Word) returns (s: State)
    requires Reaches(c, NothingYet(), s0) && LoneSender(s0, Reserving(size, charge, 1), 0)
    requires c.limit.None? || charge <= c.limit.value
    ensures Reaches(c, NothingYet(), s) && LoneSender(s, Renaming(size, charge), charge)
  {
    WrapSmall(charge);
    if c.limit.None? {
      s := NextReached(c, NothingYet(), s0, Add(0));
    } else {
      s := NextReached(c, NothingYet(), s0, Load(0));
      s := NextReached(c, NothingYet(), s, Swap(0));
    }
  }

  /** The file cannot be measured, so nothing is charged for it, whatever the limit. */
  lemma SpilledUnmeasured(c: Config, size: nat) returns (s: State)
    requires !c.sizedAtWrite && size <= U64_MAX
    ensures Reaches(c, NothingYet(), s) && OneFile(s, size, 0)
  {
    s := RefusedAndWritten(c, size);
    s := NextReached(c, NothingYet(), s, MeasureFails(0));
    s := Reserved(c, s, size, 0);
    s := NextReached(c, NothingYet(), s, Rename(0));
  }

  /** The file is charged, cannot be renamed, and stays charged. */
  lemma FailedRename(c: Config, size: nat) returns (first: State, s: State)
    requires !c.ioOk && size <= U64_MAX && (c.limit.None? || size <= c.limit.value)
    ensures Reaches(c, first, s) && s.diskUsed == size && Held(s) == 0
  {
    first := NothingYet();
    s := RefusedAndWritten(c, size);
    s := NextReached(c, first, s, Measure(0));
    s := Reserved(c, s, size, size);
    s := NextReached(c, first, s, RenameFails(0));
    NothingHeld(c, first, s, size);
  }

  // ----- reading a file back

  lemma Fetched(c: Config, first: State, s0: State, size: nat, used: Word) returns (s: State)
    requires Reaches(c, first, s0) && OneFile(s0, size, used)
    ensures Reaches(c, first, s) && InHand(s, size, used) && s.ledger == s0.ledger
  {
    s := NextReached(c, first, s0, Fill([0]));
    s := NextReached(c, first, s, Pop);
    s := NextReached(c, first, s, Read);
  }

  /** The reader has read the one file. */
  predicate InHand(s: State, size: nat, used: Word) {
    s.visible == map[0 := File(LONE, size)] && s.consumer == Loaded(0, LONE) && s.diskUsed == used
  }

  /** The file is removed, and `size` bytes more than ever were on the counter are to be subtracted. */
  predicate Short(s: State, size: nat) {
    && s.diskUsed == 0 && s.consumer.Removed? && Unsubtracted(s.consumer) == size
    && s.ledger.net == 0 && s.ledger.uncharged == size
  }

  /** Reading back a file that the counter does not know, and measuring it this time, asks for more than there is. */
  lemma Underflow(c: Config, size: nat) returns (first: State, s: State)
    requires !(c.sizedAtStart && c.sizedAtWrite) && size <= U64_MAX
    ensures Reaches(c, first, s) && first.diskUsed == 0 && Short(s, size)
  {
    if !c.sizedAtStart {
      first := Leftover(c, size, 0);
      s := first;
    } else {
      first := NothingYet();
      s := SpilledUnmeasured(c, size);
    }
    s := Fetched(c, first, s, size, 0);
    s := NextReached(c, first, s, MeasureFile);
    s := NextReached(c, first, s, SendProtocol.Step.Remove);
  }

  /** Then the counter wraps, and the empty directory seems almost as full as can be. */
  lemma AfterWrap(c: Config, size: nat) returns (first: State, s: State)
    requires !(c.sizedAtStart && c.sizedAtWrite) && 0 < size <= U64_MAX
    ensures Reaches(c, first, s) && first.diskUsed == 0
    ensures s.diskUsed == U64_MAX + 1 - size && s.ledger.net == 0 - size && Held(s) == 0
  {
    first, s := Underflow(c, size);
    s := NextReached(c, first, s, Subtract);
    WrapsOnce(0 - size);
    NothingHeld(c, first, s, 0);
  }

  /** A file that was counted cannot be measured when it is removed, and nothing is subtracted for it. */
  lemma RemovedUnread(c: Config, size: nat) returns (first: State, s: State)
    requires !c.sizedAtRead && size <= U64_MAX
    ensures Reaches(c, first, s) && s.diskUsed == size && Held(s) == 0
  {
    first := Leftover(c, size, size);
    s := Fetched(c, first, first, size, size);
    s := NextReached(c, first, s, MeasureFileFails);
    s := NextReached(c, first, s, SendProtocol.Step.Remove);
    NothingHeld(c, first, s, size);
  }

  lemma NothingHeld(c: Config, first: State, s: State, excess: nat)
    requires Reaches(c, first, s) && s.ledger.net + s.ledger.uncharged == excess
    requires excess > 0 ==> s.ledger.leaked + s.ledger.overcounted >= excess
    ensures Held(s) == 0
  {
    ReachedExact(c, first, s);
  }

  // ----- giving a batch up

  lemma RefusedOrUnwritten(c: Config) returns (first: State, s: State)
    requires !c.statusOk || !c.ioOk
    ensures Reaches(c, first, s) && s.books.dropped != {}
  {
    first := NothingYet();
    s := Submitted(c);
    if !c.statusOk {
      s := NextReached(c, first, s, AnswerRefused(0));
    } else {
      s := NextReached(c, first, s, AnswerRetry(0));
      s := NextReached(c, first, s, WriteFails(0));
    }
    assert LONE in s.books.dropped;
  }

  lemma OverLimit(c: Config) returns (first: State, s: State)
    requires c.limit.Some? && c.limit.value < U64_MAX
    ensures Reaches(c, first, s) && s.books.dropped != {}
  {
    var size := c.limit.value + 1;
    first := NothingYet();
    s := RefusedAndWritten(c, size);
    s := NextReached(c, first, s, Measure(0));
    WrapSmall(size);
    s := NextReached(c, first, s, Load(0));
    assert LONE in s.books.dropped;
  }

  /** Sender 0 is about to try for the `attempts`th time; the senders from `k` on are still to come. */
  ghost predicate Contending(s: State, attempts: nat, k: nat) {
    && k > 0 && 0 in s.tasks && s.tasks[0] == Task(LONE, Reserving(0, 0, attempts))
    && s.visible == map[] && s.diskUsed == k - 1 && s.ledger.written == k - 1
    && (forall t :: t in s.tasks ==> t < k)
    && (forall b: Batch :: b in s.books.place ==> b.id < k)
  }

  /** Every sum is within the limit, and yet a batch is given up when others are faster eleven times in a row. */
  lemma Outrun(c: Config) returns (first: State, s: State)
    requires c.limit == Some(U64_MAX)
    ensures Reaches(c, first, s) && s.books.dropped != {}
  {
    first := NothingYet();
    s := RefusedAndWritten(c, 0);
    s := NextReached(c, first, s, Measure(0));
    s := OutrunFrom(c, first, s, 1);
  }

  lemma {:induction false} OutrunFrom(c: Config, first: State, s0: State, attempts: nat) returns (s: State)
    requires c.limit == Some(U64_MAX) && 1 <= attempts <= 11
    requires Reaches(c, first, s0) && Contending(s0, attempts, attempts)
    ensures Reaches(c, first, s) && s.books.dropped != {}
    decreases 11 - attempts
  {
    s := NextReached(c, first, s0, Load(0));
    s := OtherCharges(c, first, s, attempts);
    s := NextReached(c, first, s, Swap(0));
    if attempts <= 10 {
      s := OutrunFrom(c, first, s, attempts + 1);
    } else {
      assert LONE in s.books.dropped;
    }
  }

  /** A sender that is still to come, `k`, has only got as far as `pc`, having put `charged` bytes on the counter; everything else is as in `s`. */
  predicate Joined(s: State, s': State, k: nat, pc: Pc, charged: nat) {
    && s'.tasks == s.tasks[k := Task(Batch(k, None), pc)] && s'.visible == s.visible
    && s'.books.place == s.books.place[Batch(k, None) := AtTask(k)]
    && s'.diskUsed == s.diskUsed + charged && s'.ledger.written == s.ledger.written + 1
  }

  /** Nothing is known of sender `k` yet, and there is room for another byte. */
  predicate Joinable(s: State, k: nat) {
    FreshTask(s, k) && Batch(k, None) !in s.books.place && s.ledger.written < U64_MAX && s.diskUsed < U64_MAX
  }

  /** Another sender comes, spills one byte, and charges it. */
  lemma OtherCharges(c: Config, first: State, s0: State, k: nat) returns (s: State)
    requires c.limit == Some(U64_MAX) && Reaches(c, first, s0) && Joinable(s0, k)
    ensures Reaches(c, first, s) && Joined(s0, s, k, Renaming(1, 1), 1)
  {
    s := OtherWrites(c, first, s0, k);
    s := NextReached(c, first, s, Measure(k));
    s := OtherReserves(c, first, s0, s, k);
  }

  lemma OtherReserves(c: Config, first: State, s0: State, s1: State, k: nat) returns (s: State)
    requires c.limit == Some(U64_MAX) && Reaches(c, first, s1)
    requires Joined(s0, s1, k, Reserving(1, 1, 1), 0) && s0.diskUsed < U64_MAX
    ensures Reaches(c, first, s) && Joined(s0, s, k, Renaming(1, 1), 1)
  {
    WrapSmall(s0.diskUsed + 1);
    s := NextReached(c, first, s1, Load(k));
    s := NextReached(c, first, s, Swap(k));
  }

  lemma OtherWrites(c: Config, first: State, s0: State, k: nat) returns (s: State)
    requires Reaches(c, first, s0) && Joinable(s0, k)
    ensures Reaches(c, first, s) && Joined(s0, s, k, Written(1), 0)
  {
    s := NextReached(c, first, s0, Submit(k, Batch(k, None)));
    s := NextReached(c, first, s, Stage(k));
    s := NextReached(c, first, s, AnswerRetry(k));
    s := NextReached(c, first, s, Write(k, 1));
  }
}
