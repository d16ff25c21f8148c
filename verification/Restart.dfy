/** What a restart makes of a run: persisting, reloading and resuming, end to end. */
module Restart {
  import opened Prelude
  import opened Spans
  import opened OffsetMaps
  import opened Codec
  import opened OffsetActor
  import opened OffsetRuns
  import opened Resume

  /** What the reload hands over for `f`; after a failed reload there is nothing for any file. */
  function Restored(db: Rows, f: FileId): Option<seq<Span>> {
    if Reload(db).Ok? && f in Reload(db).value then Some(Reload(db).value[f]) else None
  }

  lemma RestoredIsHull(db: Rows, f: FileId, v: seq<Span>)
    requires f in db && v != [] && db[f] == Encode(v)
    ensures Restored(db, f) == if Reload(db).Ok? then Some([Interval(v[0].start, v[|v| - 1].end)]) else None
    ensures Reload(db).Ok? ==> Orderly(v)
  {
    RoundTripIsHull(v);
    if Reload(db).Ok? { assert Decode(db[f]).Ok?; }
  }

  /** The default offsets are nothing, or one span up to the end of the file. */
  lemma DefaultStart(lookback: Lookback, len: Option<nat>, createdLater: bool)
    requires len.Some? ==> len.value < U64_MAX
    ensures var d := DefaultOffset(lookback, len, createdLater);
            var fileLen := if len.Some? then len.value else 0;
            StrictStarts(d) && (FirstGap(d).start == 0 || FirstGap(d).start == fileLen)
  {
  }

  /**
   After any run and a restart, for a file whose row is current: reading resumes at
   the end of the file's last acknowledged span if every row of the database can be
   decoded and the file still reaches that far, and where the look-back default
   says otherwise.
   */
  lemma RestartResumes(states: seq<State>, inputs: seq<Input>, n: nat, f: FileId,
                       lookback: Lookback, len: Option<nat>, createdLater: bool)
    requires IsRun(states, inputs) && n <= |inputs| && RowMatches(states[n], f)
    requires len.Some? ==> len.value < U64_MAX
    ensures var db, v := states[n].db, states[n].files[f];
            var fileLen := if len.Some? then len.value else 0;
            var last := v[|v| - 1].end;
            && (Restored(db, f).Some? ==> Restored(db, f).value != [])
            && (Restored(db, f).Some? <==> Reload(db).Ok?)
            && (Reload(db).Ok? ==> Orderly(v))
            && var initial := GetInitialOffset(Restored(db, f), lookback, len, createdLater);
            && StrictStarts(initial)
            && if Reload(db).Ok? && last <= fileLen
               then initial == [Interval(0, last)] && FirstGap(initial) == Gap(last, None)
               else initial == DefaultOffset(lookback, len, createdLater)
  {
    var v := states[n].files[f];
    RestoredIsHull(states[n].db, f, v);
    DefaultStart(lookback, len, createdLater);
    if Reload(states[n].db).Ok? {
      RoundTripIsHull(v);
      LookupFillsFront(v[0].start, v[|v| - 1].end);
    }
  }

  /** Everything before `p` was acknowledged. */
  ghost predicate AllAcknowledged(states: seq<State>, inputs: seq<Input>, n: nat, f: FileId, p: nat)
    requires n <= |inputs| <= |states|
  {
    forall x :: 0 <= x < p ==> Acknowledged(states, inputs, n, f, x)
  }

  lemma AcknowledgedPrefix(states: seq<State>, inputs: seq<Input>, n: nat, f: FileId, p: nat)
    requires IsRun(states, inputs) && n <= |inputs|
    ensures AllAcknowledged(states, inputs, n, f, p) <==> p <= FirstUncovered(SpansOf(states[n].files, f), 0)
  {
    var v := SpansOf(states[n].files, f);
    RunKeepsInv(states, inputs, n);
    FirstUncoveredMeans(v, 0);
    MemoryIsUnionOfFlushes(states, inputs, n, f, FirstUncovered(v, 0));
    forall x ensures Covers(v, x) <==> Acknowledged(states, inputs, n, f, x) { MemoryIsUnionOfFlushes(states, inputs, n, f, x); }
  }

  lemma UnbrokenReachesEnd(states: seq<State>, inputs: seq<Input>, n: nat, f: FileId)
    requires IsRun(states, inputs) && n <= |inputs| && RowMatches(states[n], f) && Orderly(states[n].files[f])
    ensures var v := states[n].files[f];
            v[|v| - 1].end <= FirstUncovered(v, 0) <==> Unbroken(v)
  {
    var v := states[n].files[f];
    RunKeepsInv(states, inputs, n);
    ResumeSkipsNothing(v);
    FirstUncoveredMeans(v, 0);
    assert In(v[|v| - 1].end, v[|v| - 1]);
  }

  /**
   Wherever reading resumes, nothing unacknowledged is skipped if and only if it
   resumes no later than the first offset that the file's spans leave uncovered.
   Where the row decides, that is so exactly when the spans, from 0 on, leave no
   gap; where the default does, reading resumes at 0 or at the end of the file.
   */
  lemma RestartSkipsOnlyAcknowledged(states: seq<State>, inputs: seq<Input>, n: nat, f: FileId,
                                     lookback: Lookback, len: Option<nat>, createdLater: bool)
    requires IsRun(states, inputs) && n <= |inputs| && RowMatches(states[n], f)
    requires len.Some? ==> len.value < U64_MAX
    ensures var db, v := states[n].db, states[n].files[f];
            var fileLen := if len.Some? then len.value else 0;
            && (Restored(db, f).Some? ==> Restored(db, f).value != [])
            && var initial := GetInitialOffset(Restored(db, f), lookback, len, createdLater);
            && StrictStarts(initial)
            && var p := FirstGap(initial).start;
            && (AllAcknowledged(states, inputs, n, f, p) <==> p <= FirstUncovered(v, 0))
            && if Reload(db).Ok? && v[|v| - 1].end <= fileLen
               then p == v[|v| - 1].end && (AllAcknowledged(states, inputs, n, f, p) <==> Unbroken(v))
               else p == 0 || p == fileLen
  {
    RestartResumes(states, inputs, n, f, lookback, len, createdLater);
    DefaultStart(lookback, len, createdLater);
    AcknowledgedPrefix(states, inputs, n, f, FirstGap(GetInitialOffset(Restored(states[n].db, f), lookback, len, createdLater)).start);
    if Reload(states[n].db).Ok? { UnbrokenReachesEnd(states, inputs, n, f); }
  }

  // ----- a database that cannot be read back

  /** One line staged and acknowledged, with every write going through. */
  function AckLine(s: State, f: FileId, span: Span): State {
    Step(Step(s, Input(Update(map[f := [span]]), true, true)), Input(Flush(Some(s.nextKey)), true, true))
  }

  lemma AckLineStep(s: State, f: FileId, span: Span)
    requires Inv(s)
    ensures var s' := AckLine(s, f, span);
            && Inv(s') && f in s'.files && s'.files[f] == Inserted(SpansOf(s.files, f), span)
            && RowMatches(s', f)
  {
    var staged := map[f := [span]];
    var s1 := Step(s, Input(Update(staged), true, true));
    var flush := Input(Flush(Some(s.nextKey)), true, true);
    StepKeepsInv(s, Input(Update(staged), true, true));
    StepKeepsInv(s1, flush);
    assert FlushedBatch(s1, Some(s.nextKey)) == staged;
    MergesOne(SpansOf(s.files, f), span);
    InsertedCovers(SpansOf(s.files, f), span, span.start);
    StepFlushed(s1, flush, f);
    RowMatchesFlush(s1, flush, f);
  }

  lemma MergesOne(v: seq<Span>, span: Span)
    ensures InsertedAll(v, [span]) == Inserted(v, span)
  {
    assert [span][1..] == [];
  }

  /** The spans that the two lines leave, and the database they leave them in. */
  lemma TwoLines(f: FileId)
    ensures var s := AckLine(AckLine(Initial(map[]), f, Interval(10, 11)), f, Interval(5, 6));
            Inv(s) && SpansOf(s.files, f) == Inserted(Inserted([], Interval(10, 11)), Interval(5, 6))
  {
    var s1 := AckLine(Initial(map[]), f, Interval(10, 11));
    AckLineStep(Initial(map[]), f, Interval(10, 11));
    AckLineStep(s1, f, Interval(5, 6));
  }

  /**
   Three acknowledged lines, in an order that leaves the second span inside the
   first one, write a row that fails to decode; with it no file is restored.
   */
  lemma ReloadCanFail(f: FileId)
    ensures var s := AckLine(AckLine(AckLine(Initial(map[]), f, Interval(10, 11)), f, Interval(5, 6)), f, Interval(0, 20));
            Inv(s) && Reload(s.db).Err?
  {
    var s2 := AckLine(AckLine(Initial(map[]), f, Interval(10, 11)), f, Interval(5, 6));
    TwoLines(f);
    AckLineStep(s2, f, Interval(0, 20));
    BadRow(AckLine(s2, f, Interval(0, 20)), f, SpansOf(s2.files, f));
  }

  lemma BadRow(s: State, f: FileId, before: seq<Span>)
    requires RowMatches(s, f) && s.files[f] == Inserted(before, Interval(0, 20))
    requires before == Inserted(Inserted([], Interval(10, 11)), Interval(5, 6))
    ensures Reload(s.db).Err?
  {
    BuildsBadVector(Inserted([], Interval(10, 11)), before, s.files[f]);
    RowRestores(s.db[f], s.files[f]);
  }

  lemma BuildsBadVector(v1: seq<Span>, v2: seq<Span>, v3: seq<Span>)
    requires v1 == Inserted([], Interval(10, 11)) && v2 == Inserted(v1, Interval(5, 6)) && v3 == Inserted(v2, Interval(0, 20))
    ensures !Orderly(v3)
  {
    var far, near, wide := Interval(10, 11), Interval(5, 6), Interval(0, 20);
    InsertCanLoseGaps(20);
    MergesOne(v1, near);
    assert [far, near][1..] == [near];
    assert v3 == [wide, far];
    assert v3[0].end > v3[0 + 1].start;
  }
}
