/** What whole runs of the offset actor keep, whatever the order of its events. */
module OffsetRuns {
  import opened Prelude
  import opened Spans
  import opened OffsetMaps
  import opened Codec
  import opened OffsetActor

  ghost predicate IsRun(states: seq<State>, inputs: seq<Input>) {
    && |states| == |inputs| + 1
    && (exists db :: states[0] == Initial(db))
    && forall i :: 0 <= i < |inputs| ==> states[i + 1] == Step(states[i], inputs[i])
  }

  /** A flush that merges spans of `f`. */
  predicate FlushesFile(s: State, input: Input, f: FileId) {
    input.handleOk && input.event.Flush? && f in FlushedBatch(s, input.event.key)
  }

  ghost predicate FlushesOffset(s: State, input: Input, f: FileId, x: int) {
    FlushesFile(s, input, f) && Covers(FlushedBatch(s, input.event.key)[f], x)
  }

  /** An event after which `f` is no longer in memory. */
  predicate Ejects(input: Input, f: FileId) {
    input.handleOk && match input.event
      case Delete(g) => f == g
      case GarbageCollect(retained) => f !in retained
      case _ => false
  }

  predicate SameEntry<K, V(==)>(a: map<K, V>, b: map<K, V>, k: K) {
    if k in a then k in b && a[k] == b[k] else k !in b
  }

  // ----- one step, seen from one file

  lemma {:induction false} RemovesElsewhere(db: Rows, ops: seq<WriteOp>, f: FileId)
    requires forall i :: 0 <= i < |ops| ==> ops[i].Remove? && ops[i].file != f
    ensures SameEntry(ApplyOps(db, ops), db, f)
  {
    if ops != [] { RemovesElsewhere(db, ops[..|ops| - 1], f); }
  }

  /** A step that does not flush `f` can only eject it, and leaves its row alone while it is in memory. */
  lemma StepElsewhere(s: State, input: Input, f: FileId)
    requires Inv(s) && !FlushesFile(s, input, f)
    ensures var s' := Step(s, input);
            && (f in s'.files <==> f in s.files && !Ejects(input, f))
            && (f in s'.files ==> s'.files[f] == s.files[f])
            && (f in s.files ==> SameEntry(s'.db, s.db, f))
  {
    if f in s.files && input.handleOk && input.event.Flush? && input.writeOk {
      RemovesElsewhere(s.db, StagedOps(s), f);
    }
  }

  lemma StepFlushed(s: State, input: Input, f: FileId)
    requires Inv(s) && FlushesFile(s, input, f)
    ensures var s' := Step(s, input);
            var merged := MergedSpans(s.files, FlushedBatch(s, input.event.key), f);
            && (f in s'.files <==> merged != [])
            && (f in s'.files ==> s'.files[f] == merged)
            && (f in s'.files && input.writeOk ==> f in s'.db && s'.db[f] == Encode(merged))
  {
  }

  /** Where a row comes from: it was there, or this step wrote the file's merged spans. */
  lemma StepRow(s: State, input: Input, f: FileId)
    requires Inv(s) && f in Step(s, input).db
    ensures var row := Step(s, input).db[f];
            || (f in s.db && row == s.db[f])
            || (&& FlushesFile(s, input, f)
                && MergedSpans(s.files, FlushedBatch(s, input.event.key), f) != []
                && row == Encode(MergedSpans(s.files, FlushedBatch(s, input.event.key), f)))
  {
    if input.handleOk && input.event.Flush? && input.writeOk { OnlyRemoves(s.db, StagedOps(s), f); }
  }

  // ----- invariants of a run

  lemma {:induction false} RunKeepsInv(states: seq<State>, inputs: seq<Input>, n: nat)
    requires IsRun(states, inputs) && n <= |inputs|
    ensures Inv(states[n])
  {
    if n > 0 {
      RunKeepsInv(states, inputs, n - 1);
      StepKeepsInv(states[n - 1], inputs[n - 1]);
    }
  }

  /** The flush at step `i` put `x` into the memory of `f`, and nothing has ejected `f` before step `n`. */
  ghost predicate HeldSince(states: seq<State>, inputs: seq<Input>, i: nat, n: nat, f: FileId, x: int)
    requires i < n <= |inputs| <= |states|
  {
    FlushesOffset(states[i], inputs[i], f, x) && forall j :: i < j < n ==> !Ejects(inputs[j], f)
  }

  ghost predicate Acknowledged(states: seq<State>, inputs: seq<Input>, n: nat, f: FileId, x: int)
    requires n <= |inputs| <= |states|
  {
    exists i :: 0 <= i < n && HeldSince(states, inputs, i, n, f, x)
  }

  /**
   The spans in memory for a file cover exactly the offsets of the batches
   flushed since the file last entered memory.
   */
  lemma {:induction false} MemoryIsUnionOfFlushes(states: seq<State>, inputs: seq<Input>, n: nat, f: FileId, x: int)
    requires IsRun(states, inputs) && n <= |inputs|
    ensures Covers(SpansOf(states[n].files, f), x) <==> Acknowledged(states, inputs, n, f, x)
  {
    if n > 0 {
      var m := n - 1;
      MemoryIsUnionOfFlushes(states, inputs, m, f, x);
      RunKeepsInv(states, inputs, m);
      AcknowledgedStep(states, inputs, m, f, x);
      if FlushesFile(states[m], inputs[m], f) {
        StepFlushed(states[m], inputs[m], f);
        InsertedAllCovers(SpansOf(states[m].files, f), FlushedBatch(states[m], inputs[m].event.key)[f], x);
      } else {
        StepElsewhere(states[m], inputs[m], f);
      }
    }
  }

  lemma AcknowledgedStep(states: seq<State>, inputs: seq<Input>, m: nat, f: FileId, x: int)
    requires m < |inputs| <= |states|
    ensures Acknowledged(states, inputs, m + 1, f, x) <==>
            FlushesOffset(states[m], inputs[m], f, x) || (Acknowledged(states, inputs, m, f, x) && !Ejects(inputs[m], f))
  {
    if FlushesOffset(states[m], inputs[m], f, x) {
      assert HeldSince(states, inputs, m, m + 1, f, x);
    }
    if Acknowledged(states, inputs, m, f, x) && !Ejects(inputs[m], f) {
      var i :| 0 <= i < m && HeldSince(states, inputs, i, m, f, x);
      assert HeldSince(states, inputs, i, m + 1, f, x);
    }
    if Acknowledged(states, inputs, m + 1, f, x) && !FlushesOffset(states[m], inputs[m], f, x) {
      var i :| 0 <= i < m + 1 && HeldSince(states, inputs, i, m + 1, f, x);
      assert i < m && HeldSince(states, inputs, i, m, f, x);
    }
  }

  /** Step `j` is the last flush of `f` before step `n`. */
  ghost predicate LastFlush(states: seq<State>, inputs: seq<Input>, j: nat, n: nat, f: FileId)
    requires j < n <= |inputs| <= |states|
  {
    FlushesFile(states[j], inputs[j], f) && forall i :: j < i < n ==> !FlushesFile(states[i], inputs[i], f)
  }

  /** The row of a file in memory is the encoding of its spans. */
  ghost predicate RowMatches(s: State, f: FileId) {
    f in s.files && s.files[f] != [] && f in s.db && s.db[f] == Encode(s.files[f])
  }

  lemma RowMatchesStep(s: State, input: Input, s': State, f: FileId)
    requires Inv(s) && s' == Step(s, input)
    requires RowMatches(s, f) && !FlushesFile(s, input, f) && f in s'.files
    ensures RowMatches(s', f)
  {
    StepElsewhere(s, input, f);
    assert s'.files[f] == s.files[f] && s'.db[f] == s.db[f];
  }

  lemma RowMatchesFlush(s: State, input: Input, f: FileId)
    requires Inv(s) && FlushesFile(s, input, f) && input.writeOk
    ensures f in Step(s, input).files ==> RowMatches(Step(s, input), f)
  {
    StepFlushed(s, input, f);
  }

  lemma LastFlushEarlier(states: seq<State>, inputs: seq<Input>, j: nat, n: nat, f: FileId)
    requires IsRun(states, inputs) && j < n - 1 < |inputs| && Inv(states[n - 1])
    requires f in states[n].files && LastFlush(states, inputs, j, n, f)
    ensures LastFlush(states, inputs, j, n - 1, f) && !FlushesFile(states[n - 1], inputs[n - 1], f)
    ensures f in states[n - 1].files
  {
    StepElsewhere(states[n - 1], inputs[n - 1], f);
  }

  /**
   While a file is in memory its database row is the encoding of its spans,
   provided the write of its last flush went through, whatever other writes failed.
   */
  lemma {:induction false} RowIsCurrent(states: seq<State>, inputs: seq<Input>, j: nat, n: nat, f: FileId)
    requires IsRun(states, inputs) && j < n <= |inputs|
    requires f in states[n].files && LastFlush(states, inputs, j, n, f) && inputs[j].writeOk
    ensures RowMatches(states[n], f)
  {
    if j == n - 1 {
      RunKeepsInv(states, inputs, j);
      assert states[j + 1] == Step(states[j], inputs[j]);
      RowMatchesFlush(states[j], inputs[j], f);
    } else {
      RunKeepsInv(states, inputs, n - 1);
      LastFlushEarlier(states, inputs, j, n, f);
      RowIsCurrent(states, inputs, j, n - 1, f);
      RowMatchesStep(states[n - 1], inputs[n - 1], states[n], f);
    }
  }

  /** Every file in memory has such a last flush. */
  lemma {:induction false} LastFlushExists(states: seq<State>, inputs: seq<Input>, n: nat, f: FileId) returns (j: nat)
    requires IsRun(states, inputs) && n <= |inputs| && f in states[n].files
    ensures j < n && LastFlush(states, inputs, j, n, f)
  {
    assert n > 0;
    j := n - 1;
    if !FlushesFile(states[j], inputs[j], f) {
      RunKeepsInv(states, inputs, j);
      StepElsewhere(states[j], inputs[j], f);
      var k := LastFlushExists(states, inputs, j, f);
      LastFlushExtends(states, inputs, k, j, f);
      j := k;
    }
  }

  lemma LastFlushExtends(states: seq<State>, inputs: seq<Input>, j: nat, n: nat, f: FileId)
    requires j < n < |inputs| <= |states|
    requires LastFlush(states, inputs, j, n, f) && !FlushesFile(states[n], inputs[n], f)
    ensures LastFlush(states, inputs, j, n + 1, f)
  {
  }

  // ----- rows of files that have left memory

  lemma {:induction false} RemovesExactly(db: Rows, ops: seq<WriteOp>, f: FileId)
    requires forall i :: 0 <= i < |ops| ==> ops[i].Remove?
    ensures f in ApplyOps(db, ops) <==> f in db && WriteOp.Remove(f) !in ops
  {
    if ops != [] {
      var init, last := ops[..|ops| - 1], ops[|ops| - 1];
      assert ops == init + [last];
      RemovesExactly(db, init, f);
    }
  }

  /** Events that leave no delete staged: a flush takes them with it, whether or not its write goes through. */
  predicate Unstaged(input: Input) {
    input.handleOk && (input.event.Flush? || input.event.Clear? || input.event.GarbageCollect?)
  }

  predicate StagesDelete(input: Input, f: FileId) { input.handleOk && input.event == Delete(f) }

  /** A delete of `f` at step `i` is still staged before step `n`. */
  ghost predicate DeleteWaits(inputs: seq<Input>, i: nat, n: nat, f: FileId)
    requires i < n <= |inputs|
  {
    StagesDelete(inputs[i], f) && forall j :: i < j < n ==> !Unstaged(inputs[j])
  }

  lemma StagedAfter(s: State, input: Input, f: FileId)
    ensures WriteOp.Remove(f) in StagedOps(Step(s, input)) <==>
            StagesDelete(input, f) || (WriteOp.Remove(f) in StagedOps(s) && !Unstaged(input))
  {
  }

  lemma {:induction false} StagedExactly(states: seq<State>, inputs: seq<Input>, n: nat, f: FileId)
    requires IsRun(states, inputs) && n <= |inputs|
    ensures WriteOp.Remove(f) in StagedOps(states[n]) <==> exists i :: 0 <= i < n && DeleteWaits(inputs, i, n, f)
  {
    if n > 0 {
      var m := n - 1;
      StagedExactly(states, inputs, m, f);
      StagedAfter(states[m], inputs[m], f);
      if StagesDelete(inputs[m], f) {
        assert DeleteWaits(inputs, m, n, f);
      } else if !Unstaged(inputs[m]) {
        if i :| 0 <= i < m && DeleteWaits(inputs, i, m, f) { assert DeleteWaits(inputs, i, n, f); }
      }
      if i :| 0 <= i < n && DeleteWaits(inputs, i, n, f) && i < m { assert DeleteWaits(inputs, i, m, f); }
    }
  }

  /** A flush whose write goes through, while a delete of `f` is staged. */
  ghost predicate RemovesRow(inputs: seq<Input>, j: nat, f: FileId)
    requires j < |inputs|
  {
    inputs[j].handleOk && inputs[j].event.Flush? && inputs[j].writeOk && exists i :: 0 <= i < j && DeleteWaits(inputs, i, j, f)
  }

  lemma RowAfter(s: State, input: Input, f: FileId)
    requires Inv(s) && !FlushesFile(s, input, f)
    ensures f in Step(s, input).db <==>
            f in s.db && !(input.handleOk && input.event.Flush? && input.writeOk && WriteOp.Remove(f) in StagedOps(s))
  {
    if input.handleOk && input.event.Flush? && input.writeOk { RemovesExactly(s.db, StagedOps(s), f); }
  }

  lemma RowGoneNow(states: seq<State>, inputs: seq<Input>, n: nat, f: FileId)
    requires IsRun(states, inputs) && n < |inputs| && !FlushesFile(states[n], inputs[n], f)
    ensures f in states[n + 1].db <==> f in states[n].db && !RemovesRow(inputs, n, f)
  {
    RunKeepsInv(states, inputs, n);
    StagedExactly(states, inputs, n, f);
    RowAfter(states[n], inputs[n], f);
  }

  /**
   The row of a file that is not flushed any more is gone if and only if a delete of
   the file was followed by a flush whose write went through, with no other flush, no
   clear and no collection in between. Collecting a file removes no row.
   */
  lemma {:induction false} RowGoneExactly(states: seq<State>, inputs: seq<Input>, m: nat, n: nat, f: FileId)
    requires IsRun(states, inputs) && m <= n <= |inputs|
    requires forall j :: m <= j < n ==> !FlushesFile(states[j], inputs[j], f)
    ensures f in states[n].db <==> f in states[m].db && forall j :: m <= j < n ==> !RemovesRow(inputs, j, f)
    decreases n
  {
    if m < n {
      RowGoneExactly(states, inputs, m, n - 1, f);
      RowGoneNow(states, inputs, n - 1, f);
      assert states[n - 1 + 1] == states[n];
    }
  }

  /** Events that drop the staged batch under `k`. */
  predicate Unstages(input: Input, k: Key) {
    input.handleOk && match input.event
      case Flush(key) => key == Some(k)
      case Clear => true
      case GarbageCollect(_) => true
      case _ => false
  }

  ghost predicate StagedAt(states: seq<State>, inputs: seq<Input>, i: nat, n: nat, k: Key, offsets: Offsets)
    requires i < n <= |inputs| <= |states|
  {
    && inputs[i] == Input(Update(offsets), true, inputs[i].writeOk) && states[i].nextKey == k
    && forall j :: i < j < n ==> !Unstages(inputs[j], k)
  }

  predicate Stands(s: State, k: Key, offsets: Offsets) { k in s.pending && s.pending[k] == offsets }

  lemma StandsStep(s: State, input: Input, k: Key, offsets: Offsets)
    requires Inv(s)
    ensures Step(s, input).nextKey >= s.nextKey
    ensures Stands(Step(s, input), k, offsets) <==>
            || (input == Input(Update(offsets), true, input.writeOk) && s.nextKey == k)
            || (Stands(s, k, offsets) && !Unstages(input, k))
  {
  }

  /**
   A key stands for the one batch that was staged under it, until that batch is
   flushed, cleared or collected; from then on it stands for nothing.
   */
  lemma {:induction false} KeyStandsForItsBatch(states: seq<State>, inputs: seq<Input>, n: nat, k: Key, offsets: Offsets)
    requires IsRun(states, inputs) && n <= |inputs|
    ensures Stands(states[n], k, offsets) <==>
            exists i :: 0 <= i < n && StagedAt(states, inputs, i, n, k, offsets)
    ensures forall i :: 0 <= i <= n ==> states[i].nextKey <= states[n].nextKey
  {
    if n > 0 {
      var m := n - 1;
      KeyStandsForItsBatch(states, inputs, m, k, offsets);
      RunKeepsInv(states, inputs, m);
      StandsStep(states[m], inputs[m], k, offsets);
      if Stands(states[n], k, offsets) {
        if Stands(states[m], k, offsets) && !Unstages(inputs[m], k) {
          var i :| 0 <= i < m && StagedAt(states, inputs, i, m, k, offsets);
          assert StagedAt(states, inputs, i, n, k, offsets);
        } else {
          assert StagedAt(states, inputs, m, n, k, offsets);
        }
      }
      if i :| 0 <= i < n && StagedAt(states, inputs, i, n, k, offsets) {
        if i < m { assert StagedAt(states, inputs, i, m, k, offsets); }
      }
    }
  }

  /** A key that no longer stands for a batch changes nothing in memory and writes no offsets. */
  lemma StaleFlushPersistsNothing(s: State, key: Option<Key>, writeOk: bool, f: FileId)
    requires Inv(s) && (key.None? || key.value !in s.pending)
    ensures var s' := Step(s, Input(Flush(key), true, writeOk));
            && s'.files == s.files
            && (f in s'.db ==> f in s.db && s'.db[f] == s.db[f])
  {
    NothingMerged(s.files);
    if writeOk { OnlyRemoves(s.db, StagedOps(s), f); }
  }

  lemma {:induction false} OnlyRemoves(db: Rows, ops: seq<WriteOp>, f: FileId)
    requires forall i :: 0 <= i < |ops| ==> ops[i].Remove?
    ensures f in ApplyOps(db, ops) ==> f in db && ApplyOps(db, ops)[f] == db[f]
  {
    if ops != [] { OnlyRemoves(db, ops[..|ops| - 1], f); }
  }
}
