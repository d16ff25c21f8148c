/** Events held back until their deadline has passed (common/fs/src/cache/delayed_stream.rs:118-181). */
module DelayedStream {
  import opened Prelude

  /** The payload is only carried along. */
  type Item = nat

  datatype Delayed = Delayed(due: int, item: Item)

  /** An event that arrives at time `now`, with its own delay or the stream's. */
  datatype Arrival = Arrival(now: int, delay: Option<nat>, item: Item)

  /** One turn of the outer loop: the time it starts at, and what arrives before the next turn. */
  datatype Turn = Turn(now: int, arrivals: seq<Arrival>)

  predicate ByDeadline(s: seq<Delayed>) {
    |s| <= 1 || (s[0].due <= s[1].due && ByDeadline(s[1..]))
  }

  /** Whatever is handed out earlier is due no later. */
  ghost predicate InOrder(s: seq<Delayed>) {
    forall i, j :: 0 <= i < j < |s| ==> s[i].due <= s[j].due
  }

  lemma {:induction false} ByDeadlineMeans(s: seq<Delayed>)
    requires ByDeadline(s)
    ensures InOrder(s)
  {
    if |s| > 1 {
      ByDeadlineMeans(s[1..]);
      assert forall i :: 0 <= i < |s| - 1 ==> s[1..][i] == s[i + 1];
    }
  }

  lemma {:induction false} ConcatInOrder(s: seq<Delayed>, t: seq<Delayed>)
    requires ByDeadline(s) && ByDeadline(t) && (s != [] && t != [] ==> s[|s| - 1].due <= t[0].due)
    ensures ByDeadline(s + t)
  {
    if s == [] {
      assert s + t == t;
    } else {
      ConcatInOrder(s[1..], t);
      assert (s + t)[1..] == s[1..] + t;
    }
  }

  predicate NoneBefore(heap: seq<Delayed>, time: int) {
    forall i :: 0 <= i < |heap| ==> time <= heap[i].due
  }

  /** How often an event occurs, in a batch or in the heap. */
  function Count(s: seq<Delayed>, d: Delayed): nat {
    if s == [] then 0 else Count(s[..|s| - 1], d) + if s[|s| - 1] == d then 1 else 0
  }

  lemma {:induction false} CountConcat(a: seq<Delayed>, b: seq<Delayed>, d: Delayed)
    ensures Count(a + b, d) == Count(a, d) + Count(b, d)
    decreases |b|
  {
    if b == [] {
      assert a + b == a;
    } else {
      assert (a + b)[..|a + b| - 1] == a + b[..|b| - 1];
      CountConcat(a, b[..|b| - 1], d);
    }
  }

  /** Every event of `all` is in one of the two parts, as often as before. */
  ghost predicate Splits(all: seq<Delayed>, a: seq<Delayed>, b: seq<Delayed>) {
    forall d :: Count(all, d) == Count(a, d) + Count(b, d)
  }

  lemma MoveOne(all: seq<Delayed>, out: seq<Delayed>, left: seq<Delayed>, k: nat)
    requires Splits(all, out, left) && k < |left|
    ensures Splits(all, out + [left[k]], left[..k] + left[k + 1..])
  {
    forall d ensures Count(all, d) == Count(out + [left[k]], d) + Count(left[..k] + left[k + 1..], d) {
      assert left == left[..k] + ([left[k]] + left[k + 1..]);
      CountConcat(left[..k], [left[k]] + left[k + 1..], d);
      CountConcat([left[k]], left[k + 1..], d);
      CountConcat(left[..k], left[k + 1..], d);
      CountConcat(out, [left[k]], d);
    }
  }

  /** Pop the heap while its least deadline has passed; events with the same deadline come in any order. */
  method DrainReady(heap: seq<Delayed>, now: int) returns (ready: seq<Delayed>, left: seq<Delayed>)
    // conservation
    ensures Splits(heap, ready, left)
    // in order, nothing early, nothing forgotten
    ensures ByDeadline(ready) && (ready != [] ==> ready[|ready| - 1].due < now)
    ensures NoneBefore(left, now)
  {
    ready, left := [], heap;
    while left != []
      invariant Splits(heap, ready, left)
      invariant ByDeadline(ready)
      invariant ready != [] ==> ready[|ready| - 1].due < now && NoneBefore(left, ready[|ready| - 1].due)
      invariant ready == [] ==> left == heap
      decreases |left|
    {
      var k := Least(left);
      var top := left[k];
      if now <= top.due {
        return;
      }
      ConcatInOrder(ready, [top]);
      MoveOne(heap, ready, left, k);
      ready := ready + [top];
      left := left[..k] + left[k + 1..];
    }
  }

  method Least(heap: seq<Delayed>) returns (k: nat)
    requires heap != []
    ensures k < |heap| && NoneBefore(heap, heap[k].due)
  {
    k := 0;
    for i := 1 to |heap|
      invariant k < |heap| && NoneBefore(heap[..i], heap[k].due)
    {
      if heap[i].due < heap[k].due { k := i; }
    }
    assert heap[..|heap|] == heap;
  }

  // ----- runs of the stream

  /** The heap is drained at an instant, or an event is taken in at one. */
  datatype Step = Drained(now: int, ready: seq<Delayed>) | Received(now: int, event: Delayed)

  ghost predicate StepOk(heap: seq<Delayed>, step: Step, heap': seq<Delayed>) {
    match step
    case Drained(now, ready) =>
      && Splits(heap, ready, heap')
      && ByDeadline(ready) && (ready != [] ==> ready[|ready| - 1].due < now)
      && NoneBefore(heap', now)
    case Received(now, event) => heap' == heap + [event] && now <= event.due
  }

  ghost predicate IsRun(heaps: seq<seq<Delayed>>, steps: seq<Step>) {
    |heaps| == |steps| + 1 && forall i :: 0 <= i < |steps| ==> StepOk(heaps[i], steps[i], heaps[i + 1])
  }

  /** Instants never run backwards. */
  ghost predicate Monotone(steps: seq<Step>) {
    forall i :: 0 <= i < |steps| - 1 ==> steps[i].now <= steps[i + 1].now
  }

  /** The instants of a run, in order. */
  function Times(steps: seq<Step>): seq<int> {
    if steps == [] then [] else Times(steps[..|steps| - 1]) + [steps[|steps| - 1].now]
  }

  /** Everything handed out, batch after batch. */
  function Emitted(steps: seq<Step>): seq<Delayed> {
    if steps == [] then []
    else if steps[|steps| - 1].Drained? then Emitted(steps[..|steps| - 1]) + steps[|steps| - 1].ready
    else Emitted(steps[..|steps| - 1])
  }

  function Fed(steps: seq<Step>): seq<Delayed> {
    if steps == [] then []
    else if steps[|steps| - 1].Received? then Fed(steps[..|steps| - 1]) + [steps[|steps| - 1].event]
    else Fed(steps[..|steps| - 1])
  }

  /** What was held at the start and what was taken in is handed out or still held, each event as often as it came. */
  lemma {:induction false} NothingLost(heaps: seq<seq<Delayed>>, steps: seq<Step>, d: Delayed)
    requires IsRun(heaps, steps)
    ensures Count(Emitted(steps), d) + Count(heaps[|steps|], d) == Count(heaps[0], d) + Count(Fed(steps), d)
    decreases |steps|
  {
    if steps != [] {
      var n := |steps| - 1;
      NothingLost(heaps[..n + 1], steps[..n], d);
      assert StepOk(heaps[n], steps[n], heaps[n + 1]);
      match steps[n]
      case Drained(_, ready) =>
        CountConcat(Emitted(steps[..n]), ready, d);
      case Received(_, event) =>
        CountConcat(Fed(steps[..n]), [event], d);
        CountConcat(heaps[n], [event], d);
    }
  }

  /** What was handed out by `now` is in order, was due, and is due before everything still held. */
  ghost predicate InOrderUntil(out: seq<Delayed>, now: int, heap: seq<Delayed>) {
    && ByDeadline(out)
    && (out != [] ==> out[|out| - 1].due < now && NoneBefore(heap, out[|out| - 1].due))
  }

  lemma DrainKeepsOrder(out: seq<Delayed>, was: int, heap: seq<Delayed>, now: int, ready: seq<Delayed>, heap': seq<Delayed>)
    requires InOrderUntil(out, was, heap) && (out != [] ==> was <= now)
    requires StepOk(heap, Drained(now, ready), heap')
    ensures InOrderUntil(out + ready, now, heap')
  {
    if ready == [] {
      assert out + ready == out;
    } else {
      if out != [] { FirstIsHeld(heap, ready, heap', out[|out| - 1].due); }
      ConcatInOrder(out, ready);
    }
  }

  /** The whole output is in deadline order, and nothing in it was handed out before its deadline. */
  lemma {:induction false} OutputInOrder(heaps: seq<seq<Delayed>>, steps: seq<Step>)
    requires IsRun(heaps, steps) && Monotone(steps)
    ensures ByDeadline(Emitted(steps))
    ensures steps != [] ==> InOrderUntil(Emitted(steps), steps[|steps| - 1].now, heaps[|steps|])
    decreases |steps|
  {
    if steps != [] {
      var n := |steps| - 1;
      var out := Emitted(steps[..n]);
      OutputInOrder(heaps[..n + 1], steps[..n]);
      assert n > 0 ==> steps[n - 1].now <= steps[n - 1 + 1].now;
      assert StepOk(heaps[n], steps[n], heaps[n + 1]);
      match steps[n]
      case Drained(now, ready) =>
        DrainKeepsOrder(out, if n > 0 then steps[n - 1].now else now, heaps[n], now, ready, heaps[n + 1]);
      case Received(now, event) =>
        assert Emitted(steps) == out;
    }
  }

  lemma {:induction false} Counted(s: seq<Delayed>, d: Delayed)
    ensures Count(s, d) > 0 <==> d in s
  {
    if s != [] { Counted(s[..|s| - 1], d); assert s == s[..|s| - 1] + [s[|s| - 1]]; }
  }

  lemma FirstIsHeld(heap: seq<Delayed>, ready: seq<Delayed>, left: seq<Delayed>, time: int)
    requires Splits(heap, ready, left) && ready != [] && NoneBefore(heap, time)
    ensures time <= ready[0].due
  {
    Counted(ready, ready[0]);
    Counted(heap, ready[0]);
    assert Count(heap, ready[0]) > 0;
  }

  lemma OneMoreStep(heaps: seq<seq<Delayed>>, steps: seq<Step>, step: Step, heap: seq<Delayed>)
    requires IsRun(heaps, steps) && StepOk(heaps[|steps|], step, heap)
    ensures IsRun(heaps + [heap], steps + [step])
    ensures Emitted(steps + [step]) == if step.Drained? then Emitted(steps) + step.ready else Emitted(steps)
    ensures Times(steps + [step]) == Times(steps) + [step.now]
    ensures Fed(steps + [step]) == if step.Received? then Fed(steps) + [step.event] else Fed(steps)
  {
    assert (steps + [step])[..|steps|] == steps;
    LongerRun(heaps, steps, step, heap);
  }

  lemma LongerRun(heaps: seq<seq<Delayed>>, steps: seq<Step>, step: Step, heap: seq<Delayed>)
    requires IsRun(heaps, steps) && StepOk(heaps[|steps|], step, heap)
    ensures IsRun(heaps + [heap], steps + [step])
  {
    var hs, ss := heaps + [heap], steps + [step];
    forall i | 0 <= i < |ss| ensures StepOk(hs[i], ss[i], hs[i + 1]) {
      if i < |steps| { assert StepOk(heaps[i], steps[i], heaps[i + 1]); }
    }
  }

  // ----- one run after another

  lemma {:induction false} EmittedConcat(a: seq<Step>, b: seq<Step>)
    ensures Emitted(a + b) == Emitted(a) + Emitted(b)
    decreases |b|
  {
    if b == [] {
      assert a + b == a;
    } else {
      assert (a + b)[..|a + b| - 1] == a + b[..|b| - 1];
      EmittedConcat(a, b[..|b| - 1]);
    }
  }

  lemma {:induction false} FedConcat(a: seq<Step>, b: seq<Step>)
    ensures Fed(a + b) == Fed(a) + Fed(b)
    decreases |b|
  {
    if b == [] {
      assert a + b == a;
    } else {
      assert (a + b)[..|a + b| - 1] == a + b[..|b| - 1];
      FedConcat(a, b[..|b| - 1]);
    }
  }

  lemma {:induction false} TimesConcat(a: seq<Step>, b: seq<Step>)
    ensures Times(a + b) == Times(a) + Times(b)
    decreases |b|
  {
    if b == [] {
      assert a + b == a;
    } else {
      assert (a + b)[..|a + b| - 1] == a + b[..|b| - 1];
      TimesConcat(a, b[..|b| - 1]);
    }
  }

  lemma RunsConcat(heaps: seq<seq<Delayed>>, steps: seq<Step>, more: seq<seq<Delayed>>, moreSteps: seq<Step>)
    requires IsRun(heaps, steps) && IsRun(more, moreSteps) && heaps[|steps|] == more[0]
    ensures IsRun(heaps + more[1..], steps + moreSteps)
    ensures (heaps + more[1..])[|steps + moreSteps|] == more[|moreSteps|]
  {
    var hs, ss := heaps + more[1..], steps + moreSteps;
    forall i | 0 <= i < |ss| ensures StepOk(hs[i], ss[i], hs[i + 1]) {
      if i < |steps| {
        assert StepOk(heaps[i], steps[i], heaps[i + 1]);
      } else {
        var k := i - |steps|;
        assert StepOk(more[k], moreSteps[k], more[k + 1]);
        assert hs[i] == more[k];
      }
    }
  }

  ghost predicate Rising(times: seq<int>) {
    forall i, j :: 0 <= i < j < |times| ==> times[i] <= times[j]
  }

  lemma {:induction false} RisingIsMonotone(steps: seq<Step>)
    ensures |Times(steps)| == |steps| && forall i :: 0 <= i < |steps| ==> Times(steps)[i] == steps[i].now
    ensures Rising(Times(steps)) ==> Monotone(steps)
  {
    if steps != [] { RisingIsMonotone(steps[..|steps| - 1]); }
  }

  /** Instants that are skipped do not matter. */
  lemma RisingWithout(a: seq<int>, skipped: seq<int>, b: seq<int>)
    requires Rising(a + (skipped + b))
    ensures Rising(a + b)
  {
    var all, n := a + (skipped + b), |skipped|;
    forall i, j | 0 <= i < j < |a + b| ensures (a + b)[i] <= (a + b)[j] {
      var i', j' := if i < |a| then i else i + n, if j < |a| then j else j + n;
      assert all[i'] == (a + b)[i] && all[j'] == (a + b)[j];
    }
  }

  // ----- the stream

  function Deadline(a: Arrival, delay: nat): Delayed {
    Delayed(a.now + (if a.delay.Some? then a.delay.value else delay), a.item)
  }

  function Deadlines(arrivals: seq<Arrival>, delay: nat): seq<Delayed> {
    if arrivals == [] then [] else Deadlines(arrivals[..|arrivals| - 1], delay) + [Deadline(arrivals[|arrivals| - 1], delay)]
  }

  function AllDeadlines(turns: seq<Turn>, delay: nat): seq<Delayed> {
    if turns == [] then [] else AllDeadlines(turns[..|turns| - 1], delay) + Deadlines(turns[|turns| - 1].arrivals, delay)
  }

  // ----- deadlines, in terms of arrivals

  /** The event's own delay, or the stream's if it has none, has passed since it arrived. */
  predicate Elapsed(a: Arrival, delay: nat, now: int) {
    match a.delay
    case Some(own) => now - a.now > own
    case None => now - a.now > delay
  }

  lemma DeadlineMeans(a: Arrival, delay: nat, now: int)
    ensures Deadline(a, delay).item == a.item && (Deadline(a, delay).due < now <==> Elapsed(a, delay, now))
  {
  }

  function TurnArrivals(turns: seq<Turn>): seq<Arrival> {
    if turns == [] then [] else TurnArrivals(turns[..|turns| - 1]) + turns[|turns| - 1].arrivals
  }

  /** One deadline for each arrival, in order. */
  ghost predicate Matched(due: seq<Delayed>, arrivals: seq<Arrival>, delay: nat) {
    |due| == |arrivals| && forall k :: 0 <= k < |due| ==> due[k] == Deadline(arrivals[k], delay)
  }

  lemma {:induction false} DeadlinesMatch(arrivals: seq<Arrival>, delay: nat)
    ensures Matched(Deadlines(arrivals, delay), arrivals, delay)
  {
    if arrivals != [] { DeadlinesMatch(arrivals[..|arrivals| - 1], delay); }
  }

  lemma MatchedConcat(due: seq<Delayed>, arrivals: seq<Arrival>, due': seq<Delayed>, arrivals': seq<Arrival>, delay: nat)
    requires Matched(due, arrivals, delay) && Matched(due', arrivals', delay)
    ensures Matched(due + due', arrivals + arrivals', delay)
  {
  }

  lemma {:induction false} TurnsMatch(turns: seq<Turn>, delay: nat)
    ensures Matched(AllDeadlines(turns, delay), TurnArrivals(turns), delay)
  {
    if turns != [] {
      var init, last := turns[..|turns| - 1], turns[|turns| - 1];
      TurnsMatch(init, delay);
      DeadlinesMatch(last.arrivals, delay);
      MatchedConcat(AllDeadlines(init, delay), TurnArrivals(init), Deadlines(last.arrivals, delay), last.arrivals, delay);
    }
  }

  /** One of the arrivals brought this item, and its delay has passed. */
  ghost predicate CameDue(e: Delayed, arrivals: seq<Arrival>, delay: nat, now: int) {
    exists k :: 0 <= k < |arrivals| && arrivals[k].item == e.item && Elapsed(arrivals[k], delay, now)
  }

  /** One of the arrivals brought this item, and its delay has not passed. */
  ghost predicate StillWaits(e: Delayed, arrivals: seq<Arrival>, delay: nat, now: int) {
    exists k :: 0 <= k < |arrivals| && arrivals[k].item == e.item && !Elapsed(arrivals[k], delay, now)
  }

  lemma HasArrival(e: Delayed, due: seq<Delayed>, arrivals: seq<Arrival>, delay: nat, now: int)
    requires Matched(due, arrivals, delay) && e in due
    ensures if e.due < now then CameDue(e, arrivals, delay, now) else StillWaits(e, arrivals, delay, now)
  {
    var k :| 0 <= k < |due| && due[k] == e;
    DeadlineMeans(arrivals[k], delay, now);
  }

  function ArrivalTimes(arrivals: seq<Arrival>): seq<int> {
    if arrivals == [] then [] else ArrivalTimes(arrivals[..|arrivals| - 1]) + [arrivals[|arrivals| - 1].now]
  }

  function TurnTimes(turns: seq<Turn>): seq<int> {
    if turns == [] then []
    else TurnTimes(turns[..|turns| - 1]) + [turns[|turns| - 1].now] + ArrivalTimes(turns[|turns| - 1].arrivals)
  }

  lemma {:induction false} TurnTimesConcat(a: seq<Turn>, b: seq<Turn>)
    ensures TurnTimes(a + b) == TurnTimes(a) + TurnTimes(b)
    decreases |b|
  {
    if b == [] {
      assert a + b == a;
    } else {
      assert (a + b)[..|a + b| - 1] == a + b[..|b| - 1];
      TurnTimesConcat(a, b[..|b| - 1]);
    }
  }

  /** The instants of a pull that stops at turn `used`. */
  function PullTimes(turns: seq<Turn>, used: nat): seq<int>
    requires used <= |turns|
  {
    TurnTimes(turns[..used]) + if used < |turns| then [turns[used].now] else []
  }

  /** Nothing that was due when the clock was last looked at is still held. */
  predicate UpToDate(turns: seq<Turn>, used: nat, heap: seq<Delayed>)
    requires used <= |turns|
  {
    used > 0 && TurnsInOrder(turns) ==> NoneBefore(heap, turns[used - 1].now)
  }

  lemma UpToDateNext(turns: seq<Turn>, used: nat, heap: seq<Delayed>)
    requires used < |turns| && (TurnInOrder(turns[used]) ==> NoneBefore(heap, turns[used].now))
    ensures UpToDate(turns, used + 1, heap)
  {
  }

  /** A pull that has found nothing to hand out in its first `used` turns. */
  ghost predicate Searched(turns: seq<Turn>, used: nat, delay: nat, heap: seq<Delayed>, heaps: seq<seq<Delayed>>, steps: seq<Step>)
    requires used <= |turns|
  {
    && IsRun(heaps, steps) && heaps[|steps|] == heap && Emitted(steps) == []
    && Fed(steps) == AllDeadlines(turns[..used], delay) && Times(steps) == TurnTimes(turns[..used])
  }

  lemma OneMoreTurn(turns: seq<Turn>, used: nat, delay: nat, steps: seq<Step>,
                    heap': seq<Delayed>, heaps': seq<seq<Delayed>>, steps': seq<Step>)
    requires used < |turns|
    requires Fed(steps) == AllDeadlines(turns[..used], delay) && Times(steps) == TurnTimes(turns[..used])
    requires IsRun(heaps', steps') && heaps'[|steps'|] == heap' && Emitted(steps') == []
    requires Fed(steps') == Fed(steps) + Deadlines(turns[used].arrivals, delay)
    requires Times(steps') == Times(steps) + [turns[used].now] + ArrivalTimes(turns[used].arrivals)
    ensures Searched(turns, used + 1, delay, heap', heaps', steps')
  {
    assert turns[..used + 1][..used] == turns[..used];
  }

  lemma AllSearched(turns: seq<Turn>, delay: nat, heap: seq<Delayed>, heaps: seq<seq<Delayed>>, steps: seq<Step>)
    requires Searched(turns, |turns|, delay, heap, heaps, steps)
    ensures Times(steps) == PullTimes(turns, |turns|)
  {
    assert TurnTimes(turns[..|turns|]) + [] == TurnTimes(turns[..|turns|]);
  }

  lemma PullTimesArePrefix(turns: seq<Turn>, used: nat) returns (skipped: seq<int>)
    requires used <= |turns|
    ensures TurnTimes(turns) == PullTimes(turns, used) + skipped
  {
    TurnTimesConcat(turns[..used], turns[used..]);
    assert turns[..used] + turns[used..] == turns;
    if used == |turns| {
      skipped := [];
    } else {
      FirstTurn(turns[used..]);
      skipped := ArrivalTimes(turns[used].arrivals) + TurnTimes(turns[used..][1..]);
    }
  }

  lemma FirstTurn(turns: seq<Turn>)
    requires turns != []
    ensures TurnTimes(turns) == [turns[0].now] + (ArrivalTimes(turns[0].arrivals) + TurnTimes(turns[1..]))
  {
    var first := [turns[0]];
    assert turns == first + turns[1..];
    TurnTimesConcat(first, turns[1..]);
    assert first[..0] == [] && TurnTimes(first) == [turns[0].now] + ArrivalTimes(turns[0].arrivals);
  }

  function AllTimes(pulls: seq<seq<Turn>>): seq<int> {
    if pulls == [] then [] else TurnTimes(pulls[0]) + AllTimes(pulls[1..])
  }

  function Joined(batches: seq<seq<Delayed>>): seq<Delayed> {
    if batches == [] then [] else Joined(batches[..|batches| - 1]) + batches[|batches| - 1]
  }

  /** The deadlines of what the pulls took in, each up to the turn in which it had something to hand out. */
  function TakenIn(pulls: seq<seq<Turn>>, used: seq<nat>, delay: nat): seq<Delayed>
    requires |used| <= |pulls| && forall i :: 0 <= i < |used| ==> used[i] <= |pulls[i]|
  {
    if used == [] then []
    else
      var n := |used| - 1;
      TakenIn(pulls, used[..n], delay) + AllDeadlines(pulls[n][..used[n]], delay)
  }

  lemma ReadyIsDue(ready: seq<Delayed>, now: int)
    requires ByDeadline(ready) && (ready != [] ==> ready[|ready| - 1].due < now)
    ensures forall e :: e in ready ==> e.due < now
  {
    ByDeadlineMeans(ready);
    forall e | e in ready ensures e.due < now {
      var i :| 0 <= i < |ready| && ready[i] == e;
      assert i < |ready| - 1 ==> ready[i].due <= ready[|ready| - 1].due;
    }
  }

  /** What the pulls took in, as it arrived. */
  function ArrivalsTaken(pulls: seq<seq<Turn>>, used: seq<nat>): seq<Arrival>
    requires |used| <= |pulls| && forall i :: 0 <= i < |used| ==> used[i] <= |pulls[i]|
  {
    if used == [] then []
    else
      var n := |used| - 1;
      ArrivalsTaken(pulls, used[..n]) + TurnArrivals(pulls[n][..used[n]])
  }

  /** Each event taken in has the item of its own arrival, and is due its delay after it. */
  lemma {:induction false} TakenInMatch(pulls: seq<seq<Turn>>, used: seq<nat>, delay: nat)
    requires |used| <= |pulls| && forall i :: 0 <= i < |used| ==> used[i] <= |pulls[i]|
    ensures Matched(TakenIn(pulls, used, delay), ArrivalsTaken(pulls, used), delay)
  {
    if used != [] {
      var n := |used| - 1;
      TakenInMatch(pulls, used[..n], delay);
      TurnsMatch(pulls[n][..used[n]], delay);
      MatchedConcat(TakenIn(pulls, used[..n], delay), ArrivalsTaken(pulls, used[..n]),
                    AllDeadlines(pulls[n][..used[n]], delay), TurnArrivals(pulls[n][..used[n]]), delay);
    }
  }

  /** What pull `i` handed out had arrived in an earlier turn, and its delay had passed. */
  ghost predicate HandedOutDue(pulls: seq<seq<Turn>>, used: seq<nat>, batches: seq<seq<Delayed>>, delay: nat, i: nat)
    requires |used| <= |pulls| && (forall j :: 0 <= j < |used| ==> used[j] <= |pulls[j]|) && i < |batches| == |used|
  {
    batches[i] != [] ==>
      used[i] < |pulls[i]| && forall e :: e in batches[i] ==>
        CameDue(e, ArrivalsTaken(pulls, used[..i + 1]), delay, pulls[i][used[i]].now)
  }

  lemma {:induction false} HandedOutWere(heaps: seq<seq<Delayed>>, steps: seq<Step>, e: Delayed)
    requires IsRun(heaps, steps) && heaps[0] == []
    ensures e in Emitted(steps) || e in heaps[|steps|] ==> e in Fed(steps)
  {
    NothingLost(heaps, steps, e);
    Counted(Emitted(steps), e);
    Counted(heaps[|steps|], e);
    Counted(Fed(steps), e);
  }

  lemma OnePullDue(pulls: seq<seq<Turn>>, n: nat, batches: seq<seq<Delayed>>, used: seq<nat>, delay: nat,
                   heaps: seq<seq<Delayed>>, steps: seq<Step>)
    requires n < |pulls| && |batches| == |used| == n + 1 && (forall i :: 0 <= i < |used| ==> used[i] <= |pulls[i]|)
    requires IsRun(heaps, steps) && heaps[0] == []
    requires Emitted(steps) == Joined(batches) && Fed(steps) == TakenIn(pulls, used, delay)
    requires batches[n] != [] ==> used[n] < |pulls[n]| && forall e :: e in batches[n] ==> e.due < pulls[n][used[n]].now
    ensures HandedOutDue(pulls, used, batches, delay, n)
  {
    assert used[..n + 1] == used;
    TakenInMatch(pulls, used, delay);
    forall e | e in batches[n] ensures CameDue(e, ArrivalsTaken(pulls, used), delay, pulls[n][used[n]].now) {
      HandedOutWere(heaps, steps, e);
      HasArrival(e, TakenIn(pulls, used, delay), ArrivalsTaken(pulls, used), delay, pulls[n][used[n]].now);
    }
  }

  ghost predicate AllHandedOutDue(pulls: seq<seq<Turn>>, used: seq<nat>, batches: seq<seq<Delayed>>, delay: nat)
    requires |batches| == |used| <= |pulls| && forall j :: 0 <= j < |used| ==> used[j] <= |pulls[j]|
  {
    forall i :: 0 <= i < |used| ==> HandedOutDue(pulls, used, batches, delay, i)
  }

  lemma HeldWait(pulls: seq<seq<Turn>>, used: seq<nat>, delay: nat, heaps: seq<seq<Delayed>>, steps: seq<Step>, now: int)
    requires |used| == |pulls| && forall i :: 0 <= i < |used| ==> used[i] <= |pulls[i]|
    requires IsRun(heaps, steps) && heaps[0] == [] && Fed(steps) == TakenIn(pulls, used, delay)
    requires NoneBefore(heaps[|steps|], now)
    ensures forall e :: e in heaps[|steps|] ==> StillWaits(e, ArrivalsTaken(pulls, used), delay, now)
  {
    TakenInMatch(pulls, used, delay);
    forall e | e in heaps[|steps|] ensures StillWaits(e, ArrivalsTaken(pulls, used), delay, now) {
      HandedOutWere(heaps, steps, e);
      HasArrival(e, TakenIn(pulls, used, delay), ArrivalsTaken(pulls, used), delay, now);
    }
  }

  /** Where a pull last looked at the clock before draining. */
  function LastLook(turns: seq<Turn>, used: nat): int
    requires turns != [] && used <= |turns|
  {
    if used < |turns| then turns[used].now else turns[|turns| - 1].now
  }

  /** The arrivals of a turn come no earlier than its start. */
  predicate TurnInOrder(turn: Turn) {
    forall k :: 0 <= k < |turn.arrivals| ==> turn.now <= turn.arrivals[k].now
  }

  predicate TurnsInOrder(turns: seq<Turn>) {
    forall q :: 0 <= q < |turns| ==> TurnInOrder(turns[q])
  }

  lemma RisingMiddle(all: seq<int>, before: seq<int>, x: int, ys: seq<int>, after: seq<int>)
    requires Rising(all) && all == before + ([x] + (ys + after))
    ensures forall k :: 0 <= k < |ys| ==> x <= ys[k]
  {
    var at := |before|;
    forall k | 0 <= k < |ys| ensures x <= ys[k] { assert all[at] == x && all[at + 1 + k] == ys[k]; }
  }

  lemma TurnsRise(turns: seq<Turn>)
    requires Rising(TurnTimes(turns))
    ensures TurnsInOrder(turns)
  {
    forall q | 0 <= q < |turns| ensures TurnInOrder(turns[q]) { TurnRises(turns, q); }
  }

  lemma TurnRises(turns: seq<Turn>, q: nat)
    requires q < |turns| && Rising(TurnTimes(turns))
    ensures TurnInOrder(turns[q])
  {
    var before, t, after := turns[..q], turns[q], turns[q + 1..];
    SplitAt(turns, q);
    SplitTimes(before, t, after);
    ArrivalTimesAt(t.arrivals);
    RisingMiddle(TurnTimes(turns), TurnTimes(before), t.now, ArrivalTimes(t.arrivals), TurnTimes(after));
  }

  lemma SplitAt(turns: seq<Turn>, q: nat)
    requires q < |turns|
    ensures turns[..q] + ([turns[q]] + turns[q + 1..]) == turns
  {
  }

  lemma SplitTimes(before: seq<Turn>, t: Turn, after: seq<Turn>)
    ensures TurnTimes(before + ([t] + after)) ==
            TurnTimes(before) + ([t.now] + (ArrivalTimes(t.arrivals) + TurnTimes(after)))
  {
    TurnTimesConcat(before, [t] + after);
    FirstTurn([t] + after);
    assert ([t] + after)[1..] == after;
  }

  lemma {:induction false} ArrivalTimesAt(arrivals: seq<Arrival>)
    ensures |ArrivalTimes(arrivals)| == |arrivals| && forall k :: 0 <= k < |arrivals| ==> ArrivalTimes(arrivals)[k] == arrivals[k].now
  {
    if arrivals != [] { ArrivalTimesAt(arrivals[..|arrivals| - 1]); }
  }

  lemma {:induction false} PullRises(pulls: seq<seq<Turn>>, n: nat)
    requires n < |pulls| && Rising(AllTimes(pulls))
    ensures Rising(TurnTimes(pulls[n]))
  {
    var first, rest := TurnTimes(pulls[0]), AllTimes(pulls[1..]);
    if n > 0 {
      assert forall i :: 0 <= i < |rest| ==> (first + rest)[|first| + i] == rest[i];
      PullRises(pulls[1..], n - 1);
    } else {
      assert forall i :: 0 <= i < |first| ==> (first + rest)[i] == first[i];
    }
  }

  /** What the pulls so far have done: one run, and the instants still to come are no earlier. */
  ghost predicate Pulled(pulls: seq<seq<Turn>>, n: nat, batches: seq<seq<Delayed>>, used: seq<nat>, delay: nat,
                         heaps: seq<seq<Delayed>>, steps: seq<Step>)
    requires n <= |pulls|
  {
    && |batches| == |used| == n && (forall i :: 0 <= i < n ==> used[i] <= |pulls[i]|)
    && IsRun(heaps, steps)
    && Emitted(steps) == Joined(batches) && Fed(steps) == TakenIn(pulls, used, delay)
    && (Rising(AllTimes(pulls)) ==> Rising(Times(steps) + AllTimes(pulls[n..])))
  }

  lemma TimesGoOn(pulls: seq<seq<Turn>>, n: nat, times: seq<int>, u: nat)
    requires n < |pulls| && u <= |pulls[n]| && Rising(times + AllTimes(pulls[n..]))
    ensures Rising(times + PullTimes(pulls[n], u) + AllTimes(pulls[n + 1..]))
  {
    var skipped := PullTimesArePrefix(pulls[n], u);
    var rest := AllTimes(pulls[n + 1..]);
    assert pulls[n..][1..] == pulls[n + 1..];
    assert times + AllTimes(pulls[n..]) == (times + PullTimes(pulls[n], u)) + (skipped + rest);
    RisingWithout(times + PullTimes(pulls[n], u), skipped, rest);
  }

  lemma OneMorePull(pulls: seq<seq<Turn>>, n: nat, batches: seq<seq<Delayed>>, used: seq<nat>, delay: nat,
                    heaps: seq<seq<Delayed>>, steps: seq<Step>, ready: seq<Delayed>, u: nat,
                    more: seq<seq<Delayed>>, moreSteps: seq<Step>)
    requires n < |pulls| && Pulled(pulls, n, batches, used, delay, heaps, steps) && u <= |pulls[n]|
    requires IsRun(more, moreSteps) && heaps[|steps|] == more[0]
    requires Emitted(moreSteps) == ready && Fed(moreSteps) == AllDeadlines(pulls[n][..u], delay)
    requires Times(moreSteps) == PullTimes(pulls[n], u)
    ensures Pulled(pulls, n + 1, batches + [ready], used + [u], delay, heaps + more[1..], steps + moreSteps)
  {
    RunsConcat(heaps, steps, more, moreSteps);
    EmittedConcat(steps, moreSteps);
    FedConcat(steps, moreSteps);
    TimesConcat(steps, moreSteps);
    assert (batches + [ready])[..n] == batches && (used + [u])[..n] == used;
    if Rising(AllTimes(pulls)) { TimesGoOn(pulls, n, Times(steps), u); }
  }

  /** Starting empty, one more pull hands out only what was due as well. */
  lemma OneMoreDue(pulls: seq<seq<Turn>>, n: nat, batches: seq<seq<Delayed>>, used: seq<nat>, delay: nat,
                   heaps: seq<seq<Delayed>>, steps: seq<Step>, ready: seq<Delayed>, u: nat)
    requires n < |pulls| && |batches| == |used| == n && (forall j :: 0 <= j < n ==> used[j] <= |pulls[j]|)
    requires AllHandedOutDue(pulls, used, batches, delay)
    requires Pulled(pulls, n + 1, batches + [ready], used + [u], delay, heaps, steps) && heaps[0] == []
    requires ready != [] ==> u < |pulls[n]| && forall e :: e in ready ==> e.due < pulls[n][u].now
    ensures AllHandedOutDue(pulls, used + [u], batches + [ready], delay)
  {
    var used', batches' := used + [u], batches + [ready];
    assert used'[n] == u && batches'[n] == ready;
    OnePullDue(pulls, n, batches', used', delay, heaps, steps);
    forall i | 0 <= i < n ensures HandedOutDue(pulls, used', batches', delay, i) {
      assert used'[..i + 1] == used[..i + 1] && batches'[i] == batches[i] && used'[i] == used[i];
      assert HandedOutDue(pulls, used, batches, delay, i);
    }
  }

  lemma PulledInOrder(pulls: seq<seq<Turn>>, batches: seq<seq<Delayed>>, used: seq<nat>, delay: nat,
                      heaps: seq<seq<Delayed>>, steps: seq<Step>)
    requires Pulled(pulls, |pulls|, batches, used, delay, heaps, steps) && Rising(AllTimes(pulls))
    ensures InOrder(Joined(batches))
  {
    assert pulls[|pulls|..] == [] && Times(steps) + [] == Times(steps);
    RisingIsMonotone(steps);
    OutputInOrder(heaps, steps);
    ByDeadlineMeans(Joined(batches));
  }

  /** All that is known after `n` pulls. */
  ghost predicate PulledWell(pulls: seq<seq<Turn>>, n: nat, batches: seq<seq<Delayed>>, used: seq<nat>, delay: nat,
                             first: seq<Delayed>, heap: seq<Delayed>, heaps: seq<seq<Delayed>>, steps: seq<Step>)
    requires n <= |pulls|
  {
    && Pulled(pulls, n, batches, used, delay, heaps, steps) && heaps[0] == first && heaps[|steps|] == heap
    && (first == [] ==> AllHandedOutDue(pulls, used, batches, delay))
    && (n > 0 && Rising(AllTimes(pulls)) && pulls[n - 1] != [] ==> NoneBefore(heap, LastLook(pulls[n - 1], used[n - 1])))
  }

  lemma PullsMore(pulls: seq<seq<Turn>>, n: nat, batches: seq<seq<Delayed>>, used: seq<nat>, delay: nat,
                  first: seq<Delayed>, heap: seq<Delayed>, heaps: seq<seq<Delayed>>, steps: seq<Step>,
                  ready: seq<Delayed>, u: nat, heap': seq<Delayed>, more: seq<seq<Delayed>>, moreSteps: seq<Step>)
    requires n < |pulls| && PulledWell(pulls, n, batches, used, delay, first, heap, heaps, steps) && u <= |pulls[n]|
    requires IsRun(more, moreSteps) && more[0] == heap && more[|moreSteps|] == heap'
    requires Emitted(moreSteps) == ready && Fed(moreSteps) == AllDeadlines(pulls[n][..u], delay)
    requires Times(moreSteps) == PullTimes(pulls[n], u)
    requires ready != [] ==> u < |pulls[n]| && forall e :: e in ready ==> e.due < pulls[n][u].now
    requires Rising(AllTimes(pulls)) && pulls[n] != [] ==> NoneBefore(heap', LastLook(pulls[n], u))
    ensures PulledWell(pulls, n + 1, batches + [ready], used + [u], delay, first, heap', heaps + more[1..], steps + moreSteps)
  {
    OneMorePull(pulls, n, batches, used, delay, heaps, steps, ready, u, more, moreSteps);
    RunsConcat(heaps, steps, more, moreSteps);
    if first == [] { OneMoreDue(pulls, n, batches, used, delay, heaps + more[1..], steps + moreSteps, ready, u); }
  }

  lemma PullsDone(pulls: seq<seq<Turn>>, batches: seq<seq<Delayed>>, used: seq<nat>, delay: nat,
                  first: seq<Delayed>, heap: seq<Delayed>, heaps: seq<seq<Delayed>>, steps: seq<Step>)
    requires PulledWell(pulls, |pulls|, batches, used, delay, first, heap, heaps, steps)
    ensures Rising(AllTimes(pulls)) ==> InOrder(Joined(batches))
    ensures forall d :: Count(Joined(batches), d) + Count(heap, d) == Count(first, d) + Count(TakenIn(pulls, used, delay), d)
    ensures first == [] && Rising(AllTimes(pulls)) && pulls != [] && pulls[|pulls| - 1] != [] ==>
              forall e :: e in heap ==>
                StillWaits(e, ArrivalsTaken(pulls, used), delay, LastLook(pulls[|pulls| - 1], used[|pulls| - 1]))
  {
    if Rising(AllTimes(pulls)) { PulledInOrder(pulls, batches, used, delay, heaps, steps); }
    if first == [] && Rising(AllTimes(pulls)) && pulls != [] && pulls[|pulls| - 1] != [] {
      HeldWait(pulls, used, delay, heaps, steps, LastLook(pulls[|pulls| - 1], used[|pulls| - 1]));
    }
    forall d ensures Count(Joined(batches), d) + Count(heap, d) == Count(first, d) + Count(TakenIn(pulls, used, delay), d) {
      NothingLost(heaps, steps, d);
    }
  }

  class Stream {
    const delay: nat
    /** The heap, in no particular order. */
    var heap: seq<Delayed>

    constructor (delay: nat)
      ensures heap == [] && this.delay == delay
    {
      this.delay, heap := delay, [];
    }

    method Receive(a: Arrival)
      modifies this
      ensures StepOk(old(heap), Received(a.now, Deadline(a, delay)), heap)
    {
      heap := heap + [Deadline(a, delay)];
    }

    method EmitReady(now: int) returns (ready: seq<Delayed>)
      modifies this
      ensures StepOk(old(heap), Drained(now, ready), heap)
    {
      ready, heap := DrainReady(heap, now);
    }

    /**
     One pull on the stream: turn after turn until something is ready, or the
     turns run out. The run it performs is returned for the lemmas above.
     */
    method Next(turns: seq<Turn>) returns (ready: seq<Delayed>, used: nat, ghost heaps: seq<seq<Delayed>>, ghost steps: seq<Step>)
      modifies this
      ensures IsRun(heaps, steps) && heaps[0] == old(heap) && heaps[|steps|] == heap
      ensures Emitted(steps) == ready
      ensures used <= |turns| && (ready != [] ==> used < |turns|)
      ensures Fed(steps) == AllDeadlines(turns[..used], delay)
      ensures Times(steps) == PullTimes(turns, used)
      ensures ready == [] <==> used == |turns|
      ensures ready != [] ==> forall e :: e in ready ==> e.due < turns[used].now
      ensures turns != [] && TurnsInOrder(turns) ==> NoneBefore(heap, LastLook(turns, used))
    {
      used, ready, heaps, steps := 0, [], [heap], [];
      while used < |turns|
        invariant used <= |turns| && ready == []
        invariant Searched(turns, used, delay, heap, heaps, steps) && heaps[0] == old(heap)
        invariant UpToDate(turns, used, heap)
        decreases |turns| - used
      {
        ghost var was := steps;
        ready, heaps, steps := TakeTurn(turns[used], heaps, steps);
        if ready != [] {
          return;
        }
        OneMoreTurn(turns, used, delay, was, heap, heaps, steps);
        UpToDateNext(turns, used, heap);
        used := used + 1;
      }
      AllSearched(turns, delay, heap, heaps, steps);
    }

    /**
     One pull after another, each with what its turns bring. If no instant is earlier
     than one before it, all that is handed out, over all pulls, is in deadline order;
     and every event is handed out or still held as often as it was held or taken in.
     Starting empty, whatever is handed out arrived before, and its delay has passed;
     and what is still held is what waits for its delay to pass.
     */
    method PullAll(pulls: seq<seq<Turn>>) returns (batches: seq<seq<Delayed>>, used: seq<nat>)
      modifies this
      ensures |batches| == |used| == |pulls| && (forall i :: 0 <= i < |used| ==> used[i] <= |pulls[i]|)
      ensures Rising(AllTimes(pulls)) ==> InOrder(Joined(batches))
      ensures forall d :: Count(Joined(batches), d) + Count(heap, d) == Count(old(heap), d) + Count(TakenIn(pulls, used, delay), d)
      ensures old(heap) == [] ==> AllHandedOutDue(pulls, used, batches, delay)
      ensures old(heap) == [] && Rising(AllTimes(pulls)) && pulls != [] && pulls[|pulls| - 1] != [] ==>
                forall e :: e in heap ==>
                  StillWaits(e, ArrivalsTaken(pulls, used), delay, LastLook(pulls[|pulls| - 1], used[|pulls| - 1]))
    {
      batches, used := [], [];
      ghost var heaps, steps: seq<Step> := [heap], [];
      assert pulls[0..] == pulls && [] + AllTimes(pulls) == AllTimes(pulls);
      for n := 0 to |pulls|
        invariant PulledWell(pulls, n, batches, used, delay, old(heap), heap, heaps, steps)
      {
        if Rising(AllTimes(pulls)) { PullRises(pulls, n); TurnsRise(pulls[n]); }
        ghost var before := heap;
        var ready, u, more, moreSteps := Next(pulls[n]);
        PullsMore(pulls, n, batches, used, delay, old(heap), before, heaps, steps, ready, u, heap, more, moreSteps);
        batches, used := batches + [ready], used + [u];
        heaps, steps := heaps + more[1..], steps + moreSteps;
      }
      PullsDone(pulls, batches, used, delay, old(heap), heap, heaps, steps);
    }

    /** Hand out what is ready, or else take in what arrives. */
    method TakeTurn(turn: Turn, ghost heaps0: seq<seq<Delayed>>, ghost steps0: seq<Step>)
      returns (ready: seq<Delayed>, ghost heaps: seq<seq<Delayed>>, ghost steps: seq<Step>)
      requires IsRun(heaps0, steps0) && heaps0[|steps0|] == heap && Emitted(steps0) == []
      modifies this
      ensures IsRun(heaps, steps) && heaps[0] == heaps0[0] && heaps[|steps|] == heap
      ensures Emitted(steps) == ready
      ensures Fed(steps) == if ready != [] then Fed(steps0) else Fed(steps0) + Deadlines(turn.arrivals, delay)
      ensures Times(steps) == if ready != [] then Times(steps0) + [turn.now]
                              else Times(steps0) + [turn.now] + ArrivalTimes(turn.arrivals)
      ensures forall e :: e in ready ==> e.due < turn.now
      ensures TurnInOrder(turn) ==> NoneBefore(heap, turn.now)
    {
      ready := EmitReady(turn.now);
      ReadyIsDue(ready, turn.now);
      OneMoreStep(heaps0, steps0, Drained(turn.now, ready), heap);
      heaps, steps := heaps0 + [heap], steps0 + [Drained(turn.now, ready)];
      if ready == [] {
        heaps, steps := ReceiveAll(turn.arrivals, turn.now, heaps, steps);
      }
    }

    method ReceiveAll(arrivals: seq<Arrival>, ghost time: int, ghost heaps0: seq<seq<Delayed>>, ghost steps0: seq<Step>)
      returns (ghost heaps: seq<seq<Delayed>>, ghost steps: seq<Step>)
      requires IsRun(heaps0, steps0) && heaps0[|steps0|] == heap
      modifies this
      ensures IsRun(heaps, steps) && heaps[0] == heaps0[0] && heaps[|steps|] == heap
      ensures Emitted(steps) == Emitted(steps0) && Fed(steps) == Fed(steps0) + Deadlines(arrivals, delay)
      ensures Times(steps) == Times(steps0) + ArrivalTimes(arrivals)
      ensures NoneBefore(old(heap), time) && (forall k :: 0 <= k < |arrivals| ==> time <= arrivals[k].now) ==> NoneBefore(heap, time)
    {
      heaps, steps := heaps0, steps0;
      for i := 0 to |arrivals|
        invariant IsRun(heaps, steps) && heaps[0] == heaps0[0] && heaps[|steps|] == heap
        invariant Emitted(steps) == Emitted(steps0) && Fed(steps) == Fed(steps0) + Deadlines(arrivals[..i], delay)
        invariant Times(steps) == Times(steps0) + ArrivalTimes(arrivals[..i])
        invariant NoneBefore(old(heap), time) && (forall k :: 0 <= k < i ==> time <= arrivals[k].now) ==> NoneBefore(heap, time)
      {
        assert arrivals[..i + 1][..i] == arrivals[..i];
        Receive(arrivals[i]);
        var step := Received(arrivals[i].now, Deadline(arrivals[i], delay));
        OneMoreStep(heaps, steps, step, heap);
        heaps, steps := heaps + [heap], steps + [step];
      }
      assert arrivals[..|arrivals|] == arrivals;
    }
  }
}
