/**
 Where reading resumes: the first gap of a file's offsets, the gap that a retry
 opens, and what a restart makes of a persisted row (common/state/src/span.rs:204-217,
 common/fs/src/cache/tailed_file.rs:686-836, common/fs/src/cache/mod.rs:884-953).
 */
module Resume {
  import opened Prelude
  import opened Spans
  import opened SpanVecs
  import opened OffsetMaps
  import opened Codec
  import opened OffsetActor

  datatype Gap = Gap(start: nat, end: Option<nat>)

  /** `first_gap`. The successor's start is positive wherever starts increase. */
  function FirstGap(v: seq<Span>): Gap
    requires StrictStarts(v)
  {
    if v == [] then Gap(0, None)
    else if v[0].start == 0 then Gap(v[0].end, if |v| > 1 then Some(v[1].start - 1) else None)
    else Gap(0, Some(v[0].start - 1))
  }

  /** In a gap-separated vector the first gap really is the first one, and it ends where it says. */
  lemma FirstGapIsFirst(v: seq<Span>)
    requires Canonical(v)
    ensures var g := FirstGap(v);
            && (forall x :: 0 <= x < g.start ==> Covers(v, x))
            && (forall x :: g.start < x && (g.end.None? || x <= g.end.value) ==> !Covers(v, x))
            && (g.end.Some? ==> g.start <= g.end.value && Covers(v, g.end.value + 1))
  {
    if v != [] {
      assert forall x :: 0 <= x <= v[0].end && v[0].start == 0 ==> In(x, v[0]);
      assert In(v[0].start, v[0]);
      if |v| > 1 { assert In(v[1].start, v[1]); }
    }
  }

  /** The subtraction that sizes the gap is safe exactly when the first span ends before the second starts. */
  lemma GapSizeSafe(v: seq<Span>)
    requires StrictStarts(v)
    ensures var g := FirstGap(v);
            (g.end.Some? ==> g.start <= g.end.value) <==>
            (|v| > 1 && v[0].start == 0 ==> v[0].end < v[1].start)
  {
  }

  /** Inserting three acknowledged lines can make that subtraction wrap. */
  lemma GapSizeCanWrap()
    ensures var v := Inserted(InsertedAll([], [Interval(10, 11), Interval(5, 6)]), Interval(0, 20));
            StrictStarts(v) && FirstGap(v) == Gap(20, Some(9))
  {
    InsertCanLoseGaps(20);
  }

  // ----- the gap a retry opens

  /**
   Reopening the line `s..e` of a file read up to `n`: the file is read again from
   the start of the line exactly when the line is the first one, or is at least two
   bytes long and not the last one.
   */
  lemma RetryReopensLine(s: nat, e: nat, n: nat)
    requires s < e <= n < U64_MAX
    ensures var left := RemovedOne(Interval(0, n), Interval(s, e));
            && Canonical(left)
            && (FirstGap(left).start == s <==> s == 0 || (s + 2 <= e && e < n))
            && (0 < s && s + 1 == e && e < n ==> left == [Interval(0, n)])
            && (0 < s && e == n ==> FirstGap(left) == Gap(s - 1, None))
            && (s + 2 <= e && e < n ==> FirstGap(left).end == Some(e - 1))
  {
  }

  /** Reading the line again closes whatever gap the retry opened. */
  lemma RetryCloses(s: nat, e: nat, n: nat)
    requires s < e <= n < U64_MAX
    ensures Inserted(RemovedOne(Interval(0, n), Interval(s, e)), Interval(s, e)) == [Interval(0, n)]
  {
    var line := Interval(s, e);
    var left := RemovedOne(Interval(0, n), line);
    if s > 0 && s + 2 <= e && e < n {
      assert left == [Interval(0, s), Interval(e, n)];
      assert left[1..] == [Interval(e, n)] && Rank(left[1..], s) == 0 && Rank(left, s) == 1;
      assert Absorb(Interval(0, e), left[1..]) == Absorb(Interval(0, n), left[1..][1..]);
    } else if s > 0 {
      assert left == [left[0]] && left[0].start == 0;
      assert left[1..] == [] && Rank(left, s) == 1;
    } else if e < n {
      assert Rank(left, 0) == 0 && left[1..] == [];
    }
  }

  /**
   How many bytes the reader is told to read for a closed gap: the gap's start is
   subtracted once when the gap is sized and once more, as the current position,
   when the reader is set up. Both subtractions wrap.
   */
  function TargetRead(g: Gap): nat
    requires g.end.Some?
  {
    ((g.end.value - g.start) % (U64_MAX + 1) - g.start) % (U64_MAX + 1)
  }

  /** The reader is told the size of the gap only when the gap starts at the beginning of the file. */
  lemma TargetReadExact(g: Gap)
    requires g.end.Some? && g.start <= g.end.value < U64_MAX
    ensures TargetRead(g) == g.end.value - g.start <==> g.start == 0
    ensures TargetRead(g) == g.end.value - 2 * g.start <==> 2 * g.start <= g.end.value
  {
    var size := g.end.value - g.start;
    assert size % (U64_MAX + 1) == size;
    if size >= g.start {
      assert TargetRead(g) == size - g.start;
    } else {
      assert TargetRead(g) == size - g.start + U64_MAX + 1;
    }
  }

  // ----- restart

  datatype Lookback = Start | SmallFiles | Tail | Nothing

  function DefaultOffset(lookback: Lookback, len: Option<nat>, createdLater: bool): seq<Span>
    requires len.Some? ==> len.value < U64_MAX
  {
    var fileLen := if len.Some? then len.value else 0;
    match lookback
    case Start => []
    case SmallFiles => if fileLen < 8192 then [] else [Interval(0, fileLen)]
    case Nothing => if len.Some? then [Interval(0, len.value)] else []
    case Tail => if len.Some? && createdLater then [] else [Interval(0, fileLen)]
  }

  /** Without usable offsets a file is read from 0, or from its present end; which of the two, exactly. */
  lemma DefaultExactly(lookback: Lookback, len: Option<nat>, createdLater: bool)
    requires len.Some? ==> len.value < U64_MAX
    ensures var d := DefaultOffset(lookback, len, createdLater);
            var fromStart := match lookback
              case Start => true
              case Nothing => len.None?
              case Tail => len.Some? && createdLater
              case SmallFiles => len.None? || len.value < 8192;
            && StrictStarts(d)
            && (fromStart <==> d == [])
            && (fromStart ==> FirstGap(d) == Gap(0, None))
            && (!fromStart ==> FirstGap(d) == Gap(if len.Some? then len.value else 0, None))
  {
  }

  /** A saved single span is taken to start at the beginning of the file. */
  function LookupOffset(saved: seq<Span>): seq<Span> {
    if |saved| == 1 then Inserted(saved, Interval(0, saved[0].start)) else saved
  }

  /** `get_initial_offset`, which indexes the saved vector and so needs it non-empty. */
  function GetInitialOffset(saved: Option<seq<Span>>, lookback: Lookback, len: Option<nat>, createdLater: bool): seq<Span>
    requires len.Some? ==> len.value < U64_MAX
    requires saved.Some? ==> saved.value != []
  {
    var fileLen := if len.Some? then len.value else 0;
    if saved.None? || LookupOffset(saved.value)[0].end > fileLen then DefaultOffset(lookback, len, createdLater)
    else LookupOffset(saved.value)
  }

  lemma LookupFillsFront(a: nat, b: nat)
    requires a <= b < U64_MAX
    ensures LookupOffset([Interval(a, b)]) == [Interval(0, b)]
  {
    var v := [Interval(a, b)];
    assert Rank(v, 0) == 0 && v[1..] == [];
  }

  /** Where several spans were saved they are used as they are, if the file reaches the first end. */
  lemma SeveralSavedSpans(saved: seq<Span>, lookback: Lookback, len: Option<nat>, createdLater: bool)
    requires |saved| > 1 && (len.Some? ==> len.value < U64_MAX)
    ensures var initial := GetInitialOffset(Some(saved), lookback, len, createdLater);
            initial == if saved[0].end <= (if len.Some? then len.value else 0) then saved else DefaultOffset(lookback, len, createdLater)
  {
  }

  /**
   Persist, restart, resume: reading goes on at the end of the last acknowledged
   span, whatever lay unacknowledged before it, if the file still reaches that far;
   otherwise the look-back policy decides.
   */
  lemma ResumesAtLastEnd(v: seq<Span>, lookback: Lookback, len: Option<nat>, createdLater: bool)
    requires v != [] && Orderly(v)
    requires len.Some? ==> len.value < U64_MAX
    ensures Decode(Encode(v)).Ok? && Decode(Encode(v)).value != []
    ensures var fileLen := if len.Some? then len.value else 0;
            var last := v[|v| - 1].end;
            var initial := GetInitialOffset(Some(Decode(Encode(v)).value), lookback, len, createdLater);
            if last <= fileLen
            then initial == [Interval(0, last)] && FirstGap(initial) == Gap(last, None)
            else initial == DefaultOffset(lookback, len, createdLater)
  {
    RoundTripIsHull(v);
    LookupFillsFront(v[0].start, v[|v| - 1].end);
  }

  /** The first offset, from `from` on, that no span covers, provided starts increase. */
  function FirstUncovered(v: seq<Span>, from: nat): nat {
    if v == [] || from < v[0].start then from else FirstUncovered(v[1..], Max(from, v[0].end + 1))
  }

  lemma {:induction false} FirstUncoveredMeans(v: seq<Span>, from: nat)
    requires StrictStarts(v)
    ensures FirstUncovered(v, from) >= from && !Covers(v, FirstUncovered(v, from))
    ensures forall x :: from <= x < FirstUncovered(v, from) ==> Covers(v, x)
  {
    if v != [] && v[0].start <= from {
      var next := Max(from, v[0].end + 1);
      FirstUncoveredMeans(v[1..], next);
      assert !In(FirstUncovered(v, from), v[0]);
      CoversSplit(v, 0, FirstUncovered(v, from));
      assert v[..0] == [];
      forall x | from <= x < FirstUncovered(v, from) ensures Covers(v, x) {
        CoversSplit(v, 0, x);
        assert next <= x ==> Covers(v[1..], x);
      }
    }
  }

  /** From 0 on each span starts no later than one past the end of the previous one. */
  ghost predicate Unbroken(v: seq<Span>) {
    v != [] && v[0].start == 0 && forall k :: 0 <= k < |v| - 1 ==> v[k + 1].start <= v[k].end + 1
  }

  lemma {:induction false} OrderlyEnds(v: seq<Span>, k: nat)
    requires Orderly(v) && k < |v|
    ensures v[k].end <= v[|v| - 1].end
    decreases |v| - k
  {
    if k < |v| - 1 {
      assert v[k].end <= v[k + 1].start;
      OrderlyEnds(v, k + 1);
    }
  }

  /**
   Resuming at the last end skips nothing unacknowledged exactly when the spans
   leave no gap. They may touch, and still be several: an insertion that stops
   early leaves such vectors.
   */
  lemma {:induction false} ResumeSkipsNothing(v: seq<Span>)
    requires v != [] && StrictStarts(v) && Orderly(v)
    ensures (forall x :: 0 <= x <= v[|v| - 1].end ==> Covers(v, x)) <==> Unbroken(v)
  {
    var last := v[|v| - 1].end;
    if Unbroken(v) {
      forall x | 0 <= x <= last ensures Covers(v, x) { UnbrokenCovers(v, |v| - 1, x); }
    } else if v[0].start > 0 {
      assert !Covers(v, 0) by { assert forall k :: 0 <= k < |v| ==> v[0].start <= v[k].start; }
    } else {
      var k :| 0 <= k < |v| - 1 && v[k + 1].start > v[k].end + 1;
      var x := v[k].end + 1;
      OrderlyEnds(v, k + 1);
      assert !Covers(v, x) by {
        forall j | 0 <= j < |v| ensures !In(x, v[j]) { GapHolds(v, k, j); }
      }
    }
  }

  /** Such a vector: every offset from 0 to 11 was covered, by two spans. */
  lemma UnbrokenByTwo()
    ensures var v := Inserted(InsertedAll([], [Interval(10, 11), Interval(5, 6)]), Interval(0, 10));
            Unbroken(v) && Orderly(v) && |v| == 2 && Decode(Encode(v)) == Ok([Interval(0, 11)])
  {
    InsertCanLoseGaps(10);
    RoundTripIsHull([Interval(0, 10), Interval(10, 11)]);
  }

  lemma {:induction false} UnbrokenCovers(v: seq<Span>, k: nat, x: nat)
    requires Unbroken(v) && k < |v| && x <= v[k].end
    ensures Covers(v, x)
    decreases k
  {
    if x < v[k].start && k > 0 {
      assert v[k - 1 + 1].start <= v[k - 1].end + 1;
      UnbrokenCovers(v, k - 1, x);
    } else {
      assert In(x, v[k]);
    }
  }

  /** Later spans start after the gap behind span `k`, earlier ones end before it. */
  lemma GapHolds(v: seq<Span>, k: nat, j: nat)
    requires StrictStarts(v) && Orderly(v) && k < |v| - 1 && v[k + 1].start > v[k].end + 1 && j < |v|
    ensures !In(v[k].end + 1, v[j])
  {
    if j > k + 1 {
      assert v[k + 1].start < v[j].start;
    } else if j < k {
      OrderlyEnds(v[..k + 1], j);
    }
  }

  /** All rows are read back together: one row that fails, and nothing is restored. */
  function Reload(db: Rows): Result<Offsets, DecodeError> {
    if exists f :: f in db && Decode(db[f]).Err? then Err(InvalidSpan)
    else Ok(map f | f in db :: Decode(db[f]).value)
  }

  function OuterEnds(v: seq<Span>): seq<Span> {
    if v != [] && v[0].start <= v[|v| - 1].end then [Interval(v[0].start, v[|v| - 1].end)] else []
  }

  ghost predicate IsRowOf(row: seq<Byte>, v: seq<Span>) {
    v != [] && row == Encode(v)
  }

  lemma RowRestores(row: seq<Byte>, v: seq<Span>)
    requires IsRowOf(row, v)
    ensures Decode(row).Ok? <==> Orderly(v)
    ensures Decode(row).Ok? ==> Decode(row).value == OuterEnds(v)
  {
    RoundTripIsHull(v);
  }

  /** Of a database of encoded vectors, everything is restored or nothing is. */
  lemma ReloadAllOrNothing(db: Rows, vectors: Offsets)
    requires db.Keys == vectors.Keys
    requires forall f :: f in db ==> IsRowOf(db[f], vectors[f])
    ensures Reload(db).Ok? <==> forall f :: f in vectors ==> Orderly(vectors[f])
    ensures Reload(db).Ok? ==> Reload(db).value == map f | f in vectors :: OuterEnds(vectors[f])
  {
    forall f | f in db
      ensures Decode(db[f]).Ok? <==> Orderly(vectors[f])
      ensures Decode(db[f]).Ok? ==> Decode(db[f]).value == OuterEnds(vectors[f])
    {
      RowRestores(db[f], vectors[f]);
    }
  }
}
