/**
 The retry buckets of a tailed file (common/fs/src/cache/tailed_file.rs:550-700 and 795-838).

 A bucket holds the spans of lines that are to be read again at its time, and
 how often they have been retried. `SpanVec::remove` has no useful contract on
 longer vectors, so the file is parameterised by what it does there; on vectors
 of at most one span it does what `SpanVec.Remove` is proved to do.
 */
module RetryBuckets {
  import opened Prelude
  import opened Spans
  import opened SpanVecs
  import opened Resume

  const MAX_RETRIES: nat := 5

  datatype Bucket = Bucket(time: int, retries: nat, spans: seq<Span>, tried: seq<Span>, inode: nat)

  type Remover = (seq<Span>, Span) -> seq<Span>

  /** On vectors of at most one span this is `SpanVec.Remove`. */
  ghost predicate Agrees(remove: Remover) {
    && (forall e: Span :: remove([], e) == [])
    && (forall x: Span, e: Span :: remove([x], e) == RemovedOne(x, e))
  }

  // ----- containment in one span

  /** `contains`: some single span holds all of `o`. */
  predicate Contains(v: seq<Span>, o: Span) {
    exists k :: 0 <= k < |v| && v[k].start <= o.start && o.end <= v[k].end
  }

  predicate AllContained(v: seq<Span>, os: seq<Span>) {
    forall i :: 0 <= i < |os| ==> Contains(v, os[i])
  }

  /** In a gap-separated vector, being held by one span is the same as being covered. */
  lemma ContainsExact(v: seq<Span>, o: Span)
    requires Canonical(v)
    ensures Contains(v, o) <==> forall x :: In(x, o) ==> Covers(v, x)
  {
    if Contains(v, o) {
      var k :| 0 <= k < |v| && v[k].start <= o.start && o.end <= v[k].end;
      forall x | In(x, o) ensures Covers(v, x) { assert In(x, v[k]); }
    } else if Covers(v, o.start) {
      var k :| 0 <= k < |v| && In(o.start, v[k]);
      assert In(v[k].end + 1, o);
      forall j | 0 <= j < |v| ensures !In(v[k].end + 1, v[j]) {
        if j < k { assert v[j].end + 1 < v[k].start; }
        if k < j { assert v[k].end + 1 < v[j].start; }
      }
      assert !Covers(v, v[k].end + 1);
    } else {
      assert In(o.start, o);
    }
  }

  lemma ContainsConcat(a: seq<Span>, b: seq<Span>, o: Span)
    ensures Contains(a + b, o) <==> Contains(a, o) || Contains(b, o)
  {
    if k :| 0 <= k < |a| && a[k].start <= o.start && o.end <= a[k].end { assert (a + b)[k] == a[k]; }
    if k :| 0 <= k < |b| && b[k].start <= o.start && o.end <= b[k].end { assert (a + b)[|a| + k] == b[k]; }
  }

  lemma ContainsSplit(s: seq<Span>, i: nat, o: Span)
    requires i < |s|
    ensures Contains(s, o) <==> Contains(s[..i], o) || Contains([s[i]], o) || Contains(s[i + 1..], o)
  {
    assert s == s[..i] + ([s[i]] + s[i + 1..]);
    ContainsConcat(s[..i], [s[i]] + s[i + 1..], o);
    ContainsConcat([s[i]], s[i + 1..], o);
  }

  lemma GrownContains(a: Span, b: Span, o: Span)
    requires Contains([a], o) || Contains([b], o)
    ensures Contains([Hull(a, b)], o)
  {
    assert [Hull(a, b)][0] == Hull(a, b);
  }

  lemma {:induction false} AbsorbContains(m: Span, rest: seq<Span>, o: Span)
    requires Contains([m], o) || Contains(rest, o)
    ensures Contains(Absorb(m, rest), o)
    decreases rest
  {
    if rest != [] && Touches(m, rest[0]) {
      ContainsSplit(rest, 0, o);
      if Contains([m], o) || Contains([rest[0]], o) { GrownContains(m, rest[0], o); }
      AbsorbContains(Hull(m, rest[0]), rest[1..], o);
    } else {
      ContainsConcat([m], rest, o);
    }
  }

  lemma MergedLeftContains(s: seq<Span>, i: nat, m: Span, o: Span)
    requires 0 < i <= |s|
    requires Contains(s[..i - 1], o) || Contains([m], o) || Contains(s[i..], o)
    ensures Contains(MergedLeft(s, i, m), o)
  {
    if i < |s| && !Touches(m, s[i]) && i > 1 && Touches(s[i - 2], m) {
      var h := Hull(s[i - 2], m);
      ContainsSplit(s[..i - 1], i - 2, o);
      assert s[..i - 1][..i - 2] == s[..i - 2] && s[..i - 1][i - 1..] == [];
      if Contains([m], o) || Contains([s[i - 2]], o) { GrownContains(s[i - 2], m, o); }
      if !Contains(s[..i - 2], o) { AbsorbContains(h, s[i..], o); }
      ContainsConcat(s[..i - 2], Absorb(h, s[i..]), o);
    } else {
      if !Contains(s[..i - 1], o) { AbsorbContains(m, s[i..], o); }
      ContainsConcat(s[..i - 1], Absorb(m, s[i..]), o);
    }
  }

  /** Insertion only ever makes spans grow: what one span held, one span still holds, and the new span too. */
  lemma InsertedContains(s: seq<Span>, e: Span, o: Span)
    requires Contains(s, o) || Contains([e], o)
    ensures Contains(Inserted(s, e), o)
  {
    var i := Rank(s, e.start);
    var r := Inserted(s, e);
    if i > 0 && Touches(s[i - 1], e) {
      ContainsSplit(s, i - 1, o);
      if Contains([e], o) || Contains([s[i - 1]], o) { GrownContains(s[i - 1], e, o); }
      MergedLeftContains(s, i, Hull(s[i - 1], e), o);
    } else if MeetsRight(s, i, e) {
      ContainsSplit(s, i, o);
      if Contains([e], o) || Contains([s[i]], o) { GrownContains(e, s[i], o); }
      ContainsSplit(r, i, o);
      assert r[..i] == s[..i] && r[i + 1..] == s[i + 1..];
    } else {
      assert s == s[..i] + s[i..];
      ContainsConcat(s[..i], s[i..], o);
      ContainsSplit(r, i, o);
      assert r[..i] == s[..i] && r[i + 1..] == s[i..];
    }
  }

  // ----- coalescing

  /** What a pass does to the buckets it keeps: nothing, or it takes a committed line out of them. */
  datatype Trim = Whole | Minus(line: Span, remove: Remover)

  function Trimmed(t: Trim, spans: seq<Span>): seq<Span> {
    match t
    case Whole => spans
    case Minus(line, remove) => remove(spans, line)
  }

  /** The pass over the buckets, last one first: what it keeps, and the spans it has met. */
  function Pass(buckets: seq<Bucket>, inode: nat, t: Trim): (seq<Bucket>, seq<Span>) {
    if buckets == [] then ([], [])
    else
      var (kept, known) := Pass(buckets[1..], inode, t);
      var b := buckets[0];
      if b.inode != inode then ([b] + kept, known)
      else if AllContained(known, b.spans) then (kept, known)
      else
        var left := Trimmed(t, b.spans);
        (if left == [] then kept else [b.(spans := left)] + kept, InsertedAll(known, b.spans))
  }

  /** The offset is pending in some bucket of the file. */
  ghost predicate Pending(buckets: seq<Bucket>, inode: nat, x: int) {
    exists b :: b in buckets && b.inode == inode && Covers(b.spans, x)
  }

  lemma PendingSplit(buckets: seq<Bucket>, inode: nat, x: int)
    requires buckets != []
    ensures Pending(buckets, inode, x) <==>
            (buckets[0].inode == inode && Covers(buckets[0].spans, x)) || Pending(buckets[1..], inode, x)
  {
    assert forall b :: b in buckets <==> b == buckets[0] || b in buckets[1..];
  }

  lemma ContainedCovers(known: seq<Span>, os: seq<Span>, x: int)
    requires AllContained(known, os) && Covers(os, x)
    ensures Covers(known, x)
  {
    var i :| 0 <= i < |os| && In(x, os[i]);
    var k :| 0 <= k < |known| && known[k].start <= os[i].start && os[i].end <= known[k].end;
    assert In(x, known[k]);
  }

  /** Dropping buckets loses no pending offset of the file and invents none. */
  lemma {:induction false} PassKeepsPending(buckets: seq<Bucket>, inode: nat, x: int)
    ensures Pending(Pass(buckets, inode, Whole).0, inode, x) <==> Pending(buckets, inode, x)
  {
    if Pending(buckets, inode, x) {
      var b := KeptBucket(buckets, inode, Whole, x);
      assert b.(spans := b.spans) == b;
    }
    if b' :| b' in Pass(buckets, inode, Whole).0 && b'.inode == inode && Covers(b'.spans, x) {
      var b := OriginalBucket(buckets, inode, Whole, b');
    }
  }

  /** Whatever the pass trims, the spans it has met are all that were pending. */
  lemma {:induction false} PassMeetsPending(buckets: seq<Bucket>, inode: nat, t: Trim, x: int)
    ensures Covers(Pass(buckets, inode, t).1, x) <==> Pending(buckets, inode, x)
  {
    if buckets != [] {
      var (kept, known) := Pass(buckets[1..], inode, t);
      var b := buckets[0];
      PassMeetsPending(buckets[1..], inode, t, x);
      PendingSplit(buckets, inode, x);
      if b.inode == inode {
        if AllContained(known, b.spans) {
          if Covers(b.spans, x) { ContainedCovers(known, b.spans, x); }
        } else {
          InsertedAllCovers(known, b.spans, x);
        }
      }
    }
  }

  /** Every pending offset is in some bucket that the pass keeps, unless trimming leaves nothing of it. */
  lemma {:induction false} KeptBucket(buckets: seq<Bucket>, inode: nat, t: Trim, x: int) returns (b: Bucket)
    requires Pending(buckets, inode, x)
    ensures b in buckets && b.inode == inode && Covers(b.spans, x)
    ensures Trimmed(t, b.spans) == [] || b.(spans := Trimmed(t, b.spans)) in Pass(buckets, inode, t).0
  {
    PendingSplit(buckets, inode, x);
    if Pending(buckets[1..], inode, x) {
      b := KeptBucket(buckets[1..], inode, t, x);
    } else {
      b := buckets[0];
      var known := Pass(buckets[1..], inode, t).1;
      PassMeetsPending(buckets[1..], inode, t, x);
      if AllContained(known, b.spans) { ContainedCovers(known, b.spans, x); }
    }
  }

  /** Every bucket of the file that the pass keeps is one there was, trimmed. */
  lemma {:induction false} OriginalBucket(buckets: seq<Bucket>, inode: nat, t: Trim, b': Bucket) returns (b: Bucket)
    requires b' in Pass(buckets, inode, t).0 && b'.inode == inode
    ensures b in buckets && b.inode == inode && b' == b.(spans := Trimmed(t, b.spans))
  {
    var kept := Pass(buckets[1..], inode, t).0;
    if b' in kept {
      b := OriginalBucket(buckets[1..], inode, t, b');
    } else {
      b := buckets[0];
    }
  }

  /** All spans of the file's buckets, inserted from the last bucket to the first. */
  function Met(buckets: seq<Bucket>, inode: nat): seq<Span> {
    if buckets == [] then []
    else
      var later := Met(buckets[1..], inode);
      if buckets[0].inode == inode then InsertedAll(later, buckets[0].spans) else later
  }

  /** The pass has met what the buckets it keeps hold, nothing more. */
  lemma {:induction false} PassMeetsKept(buckets: seq<Bucket>, inode: nat)
    ensures Pass(buckets, inode, Whole).1 == Met(Pass(buckets, inode, Whole).0, inode)
  {
    if buckets != [] {
      var (kept, known) := Pass(buckets[1..], inode, Whole);
      var b := buckets[0];
      PassMeetsKept(buckets[1..], inode);
      assert ([b] + kept)[1..] == kept;
      assert b.(spans := b.spans) == b;
      if b.spans == [] { assert AllContained(known, b.spans); }
    }
  }

  /** No bucket of the file that is kept could be dropped: each holds a span that no span of the later ones holds. */
  lemma {:induction false} NoneRedundant(buckets: seq<Bucket>, inode: nat, i: nat)
    requires i < |Pass(buckets, inode, Whole).0| && Pass(buckets, inode, Whole).0[i].inode == inode
    ensures var kept := Pass(buckets, inode, Whole).0; !AllContained(Met(kept[i + 1..], inode), kept[i].spans)
  {
    var all := Pass(buckets, inode, Whole).0;
    var kept := Pass(buckets[1..], inode, Whole).0;
    PassMeetsKept(buckets[1..], inode);
    if all == kept {
      NoneRedundant(buckets[1..], inode, i);
    } else if i == 0 {
      assert all[1..] == kept;
    } else {
      assert all == [all[0]] + kept && all[i] == kept[i - 1] && all[i + 1..] == kept[i..];
      NoneRedundant(buckets[1..], inode, i - 1);
    }
  }

  lemma {:induction false} InsertedAllContains(v: seq<Span>, es: seq<Span>, o: Span)
    requires Contains(v, o) || o in es
    ensures Contains(InsertedAll(v, es), o)
    decreases |es|
  {
    if es != [] {
      assert es == [es[0]] + es[1..];
      if Contains(v, o) || o == es[0] {
        assert o == es[0] ==> Contains([es[0]], o) by { assert [es[0]][0] == es[0]; }
        InsertedContains(v, es[0], o);
      }
      InsertedAllContains(Inserted(v, es[0]), es[1..], o);
    }
  }

  /** And every span of a bucket that is dropped is held by one span of what is kept. */
  lemma {:induction false} DroppedIsHeld(buckets: seq<Bucket>, inode: nat, b: Bucket, o: Span)
    requires b in buckets && b.inode == inode && o in b.spans
    ensures Contains(Met(Pass(buckets, inode, Whole).0, inode), o)
  {
    PassMeetsKept(buckets, inode);
    PassMeetsKept(buckets[1..], inode);
    var known := Pass(buckets[1..], inode, Whole).1;
    var first := buckets[0];
    assert buckets == [first] + buckets[1..];
    if b in buckets[1..] {
      DroppedIsHeld(buckets[1..], inode, b, o);
      if first.inode == inode && !AllContained(known, first.spans) { InsertedAllContains(known, first.spans, o); }
    } else if AllContained(known, b.spans) {
      var k :| 0 <= k < |b.spans| && b.spans[k] == o;
      assert Contains(known, b.spans[k]);
    } else {
      InsertedAllContains(known, b.spans, o);
    }
  }

  lemma {:induction false} PassKnownStarts(buckets: seq<Bucket>, inode: nat, t: Trim)
    ensures StrictStarts(Pass(buckets, inode, t).1)
  {
    if buckets != [] {
      PassKnownStarts(buckets[1..], inode, t);
      InsertedAllStarts(Pass(buckets[1..], inode, t).1, buckets[0].spans);
    }
  }

  // ----- removal by index

  function Without<T>(s: seq<T>, i: nat): seq<T>
    requires i < |s|
  {
    s[..i] + s[i + 1..]
  }

  predicate Descending(r: seq<nat>, low: nat, high: nat) {
    (forall i :: 0 <= i < |r| ==> low <= r[i] < high) && (forall i, j :: 0 <= i < j < |r| ==> r[i] > r[j])
  }

  /** Remove the listed indices one after the other. */
  function Erased(s: seq<Bucket>, r: seq<nat>): seq<Bucket> {
    if r == [] then s
    else
      var e := Erased(s, r[..|r| - 1]);
      if r[|r| - 1] < |e| then Without(e, r[|r| - 1]) else e
  }

  /** Falling indices never reach past what their own removals leave. */
  lemma {:induction false} ErasedFits(s: seq<Bucket>, r: seq<nat>)
    requires Descending(r, 0, |s|)
    ensures |Erased(s, r)| == |s| - |r|
    ensures r != [] ==> r[|r| - 1] + |r| <= |s|
  {
    if r != [] {
      var init := r[..|r| - 1];
      ErasedFits(s, init);
      if init != [] { assert r[|init| - 1] > r[|init|]; }
    }
  }

  lemma {:induction false} ErasedUpdate(s: seq<Bucket>, r: seq<nat>, i: nat, b: Bucket)
    requires i < |s| && (forall j :: 0 <= j < |r| ==> i < r[j])
    ensures i < |Erased(s, r)| && Erased(s[i := b], r) == Erased(s, r)[i := b]
  {
    if r != [] { ErasedUpdate(s, r[..|r| - 1], i, b); }
  }

  /** Marking one more, lower, bucket drops exactly that bucket. */
  lemma ErasedOneMore(s: seq<Bucket>, r: seq<nat>, head: seq<Bucket>, b: Bucket, kept: seq<Bucket>)
    requires Erased(s, r) == head + [b] + kept
    ensures Erased(s, r + [|head|]) == head + kept
  {
    assert (r + [|head|])[..|r|] == r;
    var e := head + [b] + kept;
    assert e[..|head|] == head && e[|head| + 1..] == kept;
  }

  method EraseAll(buckets: seq<Bucket>, removeList: seq<nat>) returns (out: seq<Bucket>)
    requires Descending(removeList, 0, |buckets|)
    ensures out == Erased(buckets, removeList)
  {
    out := buckets;
    for k := 0 to |removeList|
      invariant out == Erased(buckets, removeList[..k])
    {
      ghost var upTo := removeList[..k + 1];
      assert upTo[..k] == removeList[..k] && upTo[k] == removeList[k];
      ErasedFits(buckets, removeList[..k]);
      ErasedFits(buckets, upTo);
      out := Without(out, removeList[k]);
    }
    assert removeList[..|removeList|] == removeList;
  }

  /** The state of the pass once the buckets from `i` on have been looked at. */
  ghost predicate Passed(buckets: seq<Bucket>, inode: nat, t: Trim, i: nat, work: seq<Bucket>, removeList: seq<nat>, known: seq<Span>)
    requires i <= |buckets|
  {
    && |work| == |buckets| && work[..i] == buckets[..i]
    && Descending(removeList, i, |work|)
    && Erased(work, removeList) == buckets[..i] + Pass(buckets[i..], inode, t).0
    && known == Pass(buckets[i..], inode, t).1
  }

  lemma PassedOther(buckets: seq<Bucket>, inode: nat, t: Trim, i: nat, work: seq<Bucket>, removeList: seq<nat>, known: seq<Span>)
    requires i < |buckets| && Passed(buckets, inode, t, i + 1, work, removeList, known) && buckets[i].inode != inode
    ensures Passed(buckets, inode, t, i, work, removeList, known)
  {
    PassedAt(buckets, inode, t, i, work, removeList, known);
  }

  lemma PassedKnown(buckets: seq<Bucket>, inode: nat, t: Trim, i: nat, work: seq<Bucket>, removeList: seq<nat>, known: seq<Span>)
    requires i < |buckets| && Passed(buckets, inode, t, i + 1, work, removeList, known)
    requires buckets[i].inode == inode && AllContained(known, buckets[i].spans)
    ensures Passed(buckets, inode, t, i, work, removeList + [i], known)
  {
    PassedAt(buckets, inode, t, i, work, removeList, known);
    ErasedOneMore(work, removeList, buckets[..i], buckets[i], Pass(buckets[i + 1..], inode, t).0);
  }

  lemma PassedAt(buckets: seq<Bucket>, inode: nat, t: Trim, i: nat, work: seq<Bucket>, removeList: seq<nat>, known: seq<Span>)
    requires i < |buckets| && Passed(buckets, inode, t, i + 1, work, removeList, known)
    ensures work[i] == buckets[i] && work[..i] == buckets[..i]
    ensures buckets[i..][0] == buckets[i] && buckets[i..][1..] == buckets[i + 1..]
    ensures var kept := Pass(buckets[i + 1..], inode, t).0;
            Erased(work, removeList) == buckets[..i] + [buckets[i]] + kept == buckets[..i] + ([buckets[i]] + kept)
  {
    assert buckets[..i + 1] == buckets[..i] + [buckets[i]];
    assert work[i] == work[..i + 1][i] && work[..i] == work[..i + 1][..i];
  }

  /** A bucket with something new is trimmed, and marked if nothing of it is left. */
  lemma TrimStep(buckets: seq<Bucket>, inode: nat, t: Trim, i: nat, work: seq<Bucket>, removeList: seq<nat>, known: seq<Span>)
    requires i < |buckets| && Passed(buckets, inode, t, i + 1, work, removeList, known)
    requires buckets[i].inode == inode && !AllContained(known, buckets[i].spans)
    ensures var b' := buckets[i].(spans := Trimmed(t, buckets[i].spans));
            Passed(buckets, inode, t, i, work[i := b'],
                   if b'.spans == [] then removeList + [i] else removeList, InsertedAll(known, buckets[i].spans))
  {
    var head, b, kept := buckets[..i], buckets[i], Pass(buckets[i + 1..], inode, t).0;
    var b' := b.(spans := Trimmed(t, b.spans));
    var work' := work[i := b'];
    PassedAt(buckets, inode, t, i, work, removeList, known);
    assert Pass(buckets[i..], inode, t) == (if b'.spans == [] then kept else [b'] + kept, InsertedAll(known, b.spans));
    ErasedUpdate(work, removeList, i, b');
    Replaced(head, b, b', kept);
    assert Erased(work', removeList) == head + [b'] + kept;
    assert work'[..i] == work[..i];
    if b'.spans == [] { ErasedOneMore(work', removeList, head, b', kept); }
  }

  lemma Replaced(head: seq<Bucket>, b: Bucket, b': Bucket, kept: seq<Bucket>)
    ensures (head + [b] + kept)[|head| := b'] == head + [b'] + kept == head + ([b'] + kept)
  {
  }

  /** Mark the buckets from the last to the first, then remove the marked ones, highest index first. */
  method CoalesceBuckets(buckets: seq<Bucket>, inode: nat, t: Trim) returns (out: seq<Bucket>)
    ensures out == Pass(buckets, inode, t).0
  {
    var work := buckets;
    var known: seq<Span> := [];
    var removeList: seq<nat> := [];
    assert buckets[|buckets|..] == [] && buckets[..|buckets|] + [] == buckets;
    for i := |buckets| downto 0
      invariant Passed(buckets, inode, t, i, work, removeList, known)
    {
      PassedAt(buckets, inode, t, i, work, removeList, known);
      var b := work[i];
      if b.inode != inode {
        PassedOther(buckets, inode, t, i, work, removeList, known);
      } else {
        if AllContained(known, b.spans) {
          PassedKnown(buckets, inode, t, i, work, removeList, known);
          removeList := removeList + [i];
        } else {
          TrimStep(buckets, inode, t, i, work, removeList, known);
          PassKnownStarts(buckets[i + 1..], inode, t);
          known := InsertSpans(known, b.spans);
          var left := Trimmed(t, b.spans);
          work := work[i := b.(spans := left)];
          if left == [] {
            removeList := removeList + [i];
          }
        }
      }
    }
    assert buckets[0..] == buckets && buckets[..0] == [];
    out := EraseAll(work, removeList);
  }

  // ----- one retry of one line

  /** Every bucket is the current file's and has been retried one to five times. */
  ghost predicate Counted(buckets: seq<Bucket>, inode: nat) {
    forall i :: 0 <= i < |buckets| ==> buckets[i].inode == inode && 1 <= buckets[i].retries <= MAX_RETRIES
  }

  function MostRetries(buckets: seq<Bucket>, inode: nat, line: Span): nat {
    if buckets == [] then 0
    else
      var last := buckets[|buckets| - 1];
      var before := MostRetries(buckets[..|buckets| - 1], inode, line);
      if last.inode == inode && Contains(last.spans, line) then Max(before, last.retries) else before
  }

  function DueRetries(buckets: seq<Bucket>, line: Span, now: int): nat {
    if buckets == [] then 0
    else
      var last := buckets[|buckets| - 1];
      var before := DueRetries(buckets[..|buckets| - 1], line, now);
      if last.time < now && Contains(last.spans, line) then Max(before, last.retries) else before
  }

  /** The last due bucket has opened all of its spans. */
  function Settled(buckets: seq<Bucket>, now: int): bool {
    if buckets == [] then true
    else if buckets[|buckets| - 1].time < now then buckets[|buckets| - 1].tried == buckets[|buckets| - 1].spans
    else Settled(buckets[..|buckets| - 1], now)
  }

  function Lapse(b: Bucket, line: Span, now: int, remove: Remover): Bucket {
    if b.time < now && !Contains(b.tried, line) then b.(spans := remove(b.spans, line)) else b
  }

  function LapseAll(buckets: seq<Bucket>, line: Span, now: int, remove: Remover): (r: seq<Bucket>)
    ensures |r| == |buckets|
    ensures forall i :: 0 <= i < |r| ==> r[i] == Lapse(buckets[i], line, now, remove)
  {
    if buckets == [] then []
    else LapseAll(buckets[..|buckets| - 1], line, now, remove) + [Lapse(buckets[|buckets| - 1], line, now, remove)]
  }

  predicate Matches(b: Bucket, due: int, retries: nat) {
    -250 < b.time - due < 250 && b.retries == retries
  }

  /** The first bucket near the wanted time with the wanted count. */
  function Slot(buckets: seq<Bucket>, due: int, retries: nat): (i: nat)
    ensures i <= |buckets|
    ensures i < |buckets| ==> Matches(buckets[i], due, retries)
    ensures forall j :: 0 <= j < i ==> !Matches(buckets[j], due, retries)
  {
    if buckets == [] || Matches(buckets[0], due, retries) then 0 else 1 + Slot(buckets[1..], due, retries)
  }

  function Noted(buckets: seq<Bucket>, inode: nat, line: Span, due: int, retries: nat): seq<Bucket> {
    var i := Slot(buckets, due, retries);
    if i < |buckets| then buckets[i := buckets[i].(spans := Inserted(buckets[i].spans, line))]
    else buckets + [Bucket(due, retries, [line], [], inode)]
  }

  function Retried(buckets: seq<Bucket>, inode: nat, line: Span, now: int, due: int, remove: Remover): seq<Bucket> {
    var noted := Noted(LapseAll(buckets, line, now, remove), inode, line, due, DueRetries(buckets, line, now) + 1);
    Pass(noted, inode, Whole).0
  }

  predicate HoldsDue(b: Bucket, line: Span, now: int) { b.time < now && Contains(b.spans, line) }

  /** It is the largest count among the due buckets that hold the line, and 0 if there are none. */
  lemma {:induction false} DueRetriesIsLargest(buckets: seq<Bucket>, line: Span, now: int)
    ensures forall b :: b in buckets && HoldsDue(b, line, now) ==> b.retries <= DueRetries(buckets, line, now)
    ensures || (exists b :: b in buckets && HoldsDue(b, line, now) && b.retries == DueRetries(buckets, line, now))
            || (DueRetries(buckets, line, now) == 0 && forall b :: b in buckets ==> !HoldsDue(b, line, now))
  {
    if buckets != [] {
      var init, last := buckets[..|buckets| - 1], buckets[|buckets| - 1];
      assert buckets == init + [last];
      DueRetriesIsLargest(init, line, now);
    }
  }

  /** So is the count that the driver asks for, among all buckets of the file. */
  lemma {:induction false} MostRetriesIsLargest(buckets: seq<Bucket>, inode: nat, line: Span)
    ensures forall b :: b in buckets && b.inode == inode && Contains(b.spans, line) ==> b.retries <= MostRetries(buckets, inode, line)
    ensures || (exists b :: b in buckets && b.inode == inode && Contains(b.spans, line) && b.retries == MostRetries(buckets, inode, line))
            || (MostRetries(buckets, inode, line) == 0 && forall b :: b in buckets && b.inode == inode ==> !Contains(b.spans, line))
  {
    if buckets != [] {
      var init, last := buckets[..|buckets| - 1], buckets[|buckets| - 1];
      assert buckets == init + [last];
      MostRetriesIsLargest(init, inode, line);
    }
  }

  /** A retry event is sent exactly when the last due bucket, if any, has tried all of its spans. */
  lemma {:induction false} SettledMeans(buckets: seq<Bucket>, now: int)
    ensures Settled(buckets, now) <==>
            forall i :: 0 <= i < |buckets| && buckets[i].time < now && (forall j :: i < j < |buckets| ==> buckets[j].time >= now) ==>
              buckets[i].tried == buckets[i].spans
  {
    if buckets != [] {
      var last := |buckets| - 1;
      SettledMeans(buckets[..last], now);
      if buckets[last].time >= now {
        assert forall i :: 0 <= i < last ==> buckets[..last][i] == buckets[i];
      }
    }
  }

  /** A line joins a bucket of the same count whose time is less than a quarter of a second away. */
  lemma SharesBucket(b: Bucket, line: Span, due: int, retries: nat)
    ensures |Noted([b], b.inode, line, due, retries)| == 1 <==> retries == b.retries && due - 250 < b.time < due + 250
  {
  }

  lemma {:induction false} DueIsBounded(buckets: seq<Bucket>, inode: nat, line: Span, now: int)
    requires Counted(buckets, inode)
    ensures DueRetries(buckets, line, now) <= MostRetries(buckets, inode, line) <= MAX_RETRIES
  {
    if buckets != [] {
      DueIsBounded(buckets[..|buckets| - 1], inode, line, now);
      assert buckets[|buckets| - 1].inode == inode;
    }
  }

  lemma {:induction false} PassCounted(buckets: seq<Bucket>, inode: nat, t: Trim)
    requires Counted(buckets, inode)
    ensures Counted(Pass(buckets, inode, t).0, inode)
  {
    if buckets != [] {
      assert forall i :: 0 <= i < |buckets[1..]| ==> buckets[1..][i] == buckets[i + 1];
      PassCounted(buckets[1..], inode, t);
    }
  }

  /** While retries remain, a retry keeps every count in range. */
  lemma RetriedCounted(buckets: seq<Bucket>, inode: nat, line: Span, now: int, due: int, remove: Remover)
    requires Counted(buckets, inode) && MostRetries(buckets, inode, line) < MAX_RETRIES
    ensures Counted(Retried(buckets, inode, line, now, due, remove), inode)
  {
    DueIsBounded(buckets, inode, line, now);
    RetriedCountedExactly(buckets, inode, line, now, due, remove);
  }

  /** A retry takes the count out of range exactly when a due bucket with the line is at the limit already. */
  lemma RetriedCountedExactly(buckets: seq<Bucket>, inode: nat, line: Span, now: int, due: int, remove: Remover)
    requires Counted(buckets, inode)
    ensures Counted(Retried(buckets, inode, line, now, due, remove), inode) <==> DueRetries(buckets, line, now) < MAX_RETRIES
  {
    var lapsed := LapseAll(buckets, line, now, remove);
    var retries := DueRetries(buckets, line, now) + 1;
    LapsedCounted(buckets, inode, line, now, remove);
    NotedAndPassed(lapsed, inode, line, due, retries, Retried(buckets, inode, line, now, due, remove));
  }

  lemma LapsedCounted(buckets: seq<Bucket>, inode: nat, line: Span, now: int, remove: Remover)
    requires Counted(buckets, inode)
    ensures Counted(LapseAll(buckets, line, now, remove), inode)
  {
  }

  lemma NotedAndPassed(buckets: seq<Bucket>, inode: nat, line: Span, due: int, retries: nat, after: seq<Bucket>)
    requires Counted(buckets, inode) && retries >= 1
    requires after == Pass(Noted(buckets, inode, line, due, retries), inode, Whole).0
    ensures Counted(after, inode) <==> retries <= MAX_RETRIES
  {
    if retries <= MAX_RETRIES {
      NotedCounted(buckets, inode, line, due, retries);
      PassCounted(Noted(buckets, inode, line, due, retries), inode, Whole);
    } else {
      NotedPastLimit(buckets, inode, line, due, retries);
    }
  }

  lemma NotedCounted(buckets: seq<Bucket>, inode: nat, line: Span, due: int, retries: nat)
    requires Counted(buckets, inode) && 1 <= retries <= MAX_RETRIES
    ensures Counted(Noted(buckets, inode, line, due, retries), inode)
  {
  }

  /** No bucket has such a count, so the line gets one of its own, which the pass meets first. */
  lemma NotedPastLimit(buckets: seq<Bucket>, inode: nat, line: Span, due: int, retries: nat)
    requires Counted(buckets, inode) && retries > MAX_RETRIES
    ensures !Counted(Pass(Noted(buckets, inode, line, due, retries), inode, Whole).0, inode)
  {
    var b := Bucket(due, retries, [line], [], inode);
    assert Slot(buckets, due, retries) == |buckets|;
    LastBucketStays(buckets, b, inode);
    assert b.retries > MAX_RETRIES;
  }

  lemma {:induction false} LastBucketStays(buckets: seq<Bucket>, b: Bucket, inode: nat)
    requires b.inode == inode && b.spans != []
    ensures b in Pass(buckets + [b], inode, Whole).0
  {
    var all := buckets + [b];
    if buckets == [] {
      assert all[0] == b && all[1..] == [];
      assert !Contains([], b.spans[0]);
      assert b.(spans := b.spans) == b;
    } else {
      LastBucketStays(buckets[1..], b, inode);
      assert all[1..] == buckets[1..] + [b];
    }
  }

  /** Whatever removal does to the other buckets, every byte of the line is pending afterwards. */
  lemma RetriedPending(buckets: seq<Bucket>, inode: nat, line: Span, now: int, due: int, remove: Remover, x: int)
    requires Counted(buckets, inode) && In(x, line)
    ensures Pending(Retried(buckets, inode, line, now, due, remove), inode, x)
  {
    RetriedPendingExactly(buckets, inode, line, now, due, remove, x);
  }

  ghost predicate AllPending(buckets: seq<Bucket>, inode: nat, line: Span) {
    forall x :: In(x, line) ==> Pending(buckets, inode, x)
  }

  lemma RetriedAllPending(buckets: seq<Bucket>, inode: nat, line: Span, now: int, due: int, remove: Remover)
    requires Counted(buckets, inode)
    ensures AllPending(Retried(buckets, inode, line, now, due, remove), inode, line)
  {
    forall x | In(x, line) ensures Pending(Retried(buckets, inode, line, now, due, remove), inode, x) {
      RetriedPending(buckets, inode, line, now, due, remove, x);
    }
  }

  // ----- how retries are counted

  lemma {:induction false} KeptAt(buckets: seq<Bucket>, inode: nat, i: nat)
    requires i < |buckets| && buckets[i].inode == inode && buckets[i].spans != []
    requires !AllContained(Pass(buckets[i + 1..], inode, Whole).1, buckets[i].spans)
    ensures buckets[i] in Pass(buckets, inode, Whole).0
  {
    var b := buckets[0];
    assert b.(spans := b.spans) == b;
    if i > 0 {
      assert buckets[1..][i - 1] == buckets[i] && buckets[1..][i..] == buckets[i + 1..];
      KeptAt(buckets[1..], inode, i - 1);
    }
  }

  /** The bucket that takes the line is its own, or still holds something that no later bucket of the file does. */
  predicate SlotStays(buckets: seq<Bucket>, inode: nat, line: Span, due: int, retries: nat) {
    var i, noted := Slot(buckets, due, retries), Noted(buckets, inode, line, due, retries);
    i == |buckets| || !AllContained(Pass(noted[i + 1..], inode, Whole).1, noted[i].spans)
  }

  lemma NotedCounts(buckets: seq<Bucket>, inode: nat, line: Span, due: int, retries: nat)
    requires forall b :: b in buckets ==> b.inode == inode
    requires SlotStays(buckets, inode, line, due, retries)
    ensures var i, noted := Slot(buckets, due, retries), Noted(buckets, inode, line, due, retries);
            && noted[i].inode == inode && noted[i].retries == retries && Contains(noted[i].spans, line)
            && noted[i] in Pass(noted, inode, Whole).0
            && forall b :: b in noted ==> b == noted[i] || b in buckets
  {
    var i, noted := Slot(buckets, due, retries), Noted(buckets, inode, line, due, retries);
    assert Contains([line], line) by { assert [line][0] == line; }
    if i < |buckets| {
      InsertedContains(buckets[i].spans, line, line);
      KeptAt(noted, inode, i);
    } else {
      LastBucketStays(buckets, noted[i], inode);
    }
  }

  /** Some bucket that holds the line has this count, and none has more, unless one did that was not due. */
  ghost predicate CountsUp(buckets: seq<Bucket>, after: seq<Bucket>, inode: nat, line: Span, now: int, count: nat, remove: Remover) {
    && (exists b :: b in after && b.inode == inode && b.retries == count && Contains(b.spans, line))
    && MostRetries(after, inode, line) >= count
    && ((forall b :: b in buckets && Contains(Lapse(b, line, now, remove).spans, line) ==> b.retries <= count) ==>
          MostRetries(after, inode, line) == count)
  }

  /** After a retry the line has been retried once more than any due bucket that held it says. */
  lemma RetryCountsOneMore(buckets: seq<Bucket>, lapsed: seq<Bucket>, inode: nat, line: Span, now: int, due: int, count: nat,
                           remove: Remover, after: seq<Bucket>)
    requires Counted(buckets, inode) && lapsed == LapseAll(buckets, line, now, remove)
    requires count == DueRetries(buckets, line, now) + 1 && SlotStays(lapsed, inode, line, due, count)
    requires after == Retried(buckets, inode, line, now, due, remove)
    ensures CountsUp(buckets, after, inode, line, now, count, remove)
  {
    RetriedIsPassed(buckets, inode, line, now, due, remove);
    CountsOneMore(buckets, lapsed, inode, line, now, due, count, remove, after);
  }

  lemma RetriedIsPassed(buckets: seq<Bucket>, inode: nat, line: Span, now: int, due: int, remove: Remover)
    ensures Retried(buckets, inode, line, now, due, remove) ==
            Pass(Noted(LapseAll(buckets, line, now, remove), inode, line, due, DueRetries(buckets, line, now) + 1), inode, Whole).0
  {
  }

  lemma CountsOneMore(buckets: seq<Bucket>, lapsed: seq<Bucket>, inode: nat, line: Span, now: int, due: int, count: nat,
                      remove: Remover, after: seq<Bucket>)
    requires Counted(buckets, inode) && lapsed == LapseAll(buckets, line, now, remove)
    requires SlotStays(lapsed, inode, line, due, count)
    requires after == Pass(Noted(lapsed, inode, line, due, count), inode, Whole).0
    ensures CountsUp(buckets, after, inode, line, now, count, remove)
  {
    var noted, i := Noted(lapsed, inode, line, due, count), Slot(lapsed, due, count);
    NotedCounts(lapsed, inode, line, due, count);
    MostRetriesAtLeast(after, inode, line, noted[i]);
    MostRetriesIsLargest(after, inode, line);
    if MostRetries(after, inode, line) > count {
      var b :| b in after && b.inode == inode && Contains(b.spans, line) && b.retries == MostRetries(after, inode, line);
      var was := OriginalBucket(noted, inode, Whole, b);
      assert b == was && b in lapsed;
      var j :| 0 <= j < |lapsed| && lapsed[j] == b;
      assert buckets[j] in buckets && b == Lapse(buckets[j], line, now, remove) && b.retries == buckets[j].retries;
    }
  }

  lemma MostRetriesAtLeast(buckets: seq<Bucket>, inode: nat, line: Span, b: Bucket)
    requires b in buckets && b.inode == inode && Contains(b.spans, line)
    ensures MostRetries(buckets, inode, line) >= b.retries
  {
    MostRetriesIsLargest(buckets, inode, line);
  }

  /** A bucket that holds only this line, and is due: the next retry replaces it by one with one retry more. */
  lemma LoneRetry(b: Bucket, line: Span, now: int, due: int, remove: Remover)
    requires Agrees(remove) && b.spans == [line] && b.time < now
    ensures Retried([b], b.inode, line, now, due, remove) == [Bucket(due, b.retries + 1, [line], [], b.inode)]
  {
    var next := Bucket(due, b.retries + 1, [line], [], b.inode);
    var left := Lapse(b, line, now, remove);
    assert Contains([line], line) by { assert [line][0] == line; }
    assert [b][..0] == [] && LapseAll([b], line, now, remove) == [left];
    assert DueRetries([b], line, now) == b.retries;
    assert Slot([left], due, b.retries + 1) == 1 by { assert [left][1..] == []; }
    assert Noted([left], b.inode, line, due, b.retries + 1) == [left, next];
    assert left.spans == [] || left.spans == [line];
    LastOfTwo(left, next, line);
  }

  lemma LastOfTwo(left: Bucket, next: Bucket, line: Span)
    requires next.spans == [line] && left.inode == next.inode && (left.spans == [] || left.spans == [line])
    ensures Pass([left, next], next.inode, Whole).0 == [next]
  {
    LonePass(next, line);
    assert [left, next][1..] == [next];
    assert Contains([line], line) by { assert [line][0] == line; }
    assert AllContained([line], left.spans);
  }

  lemma LonePass(b: Bucket, line: Span)
    requires b.spans == [line]
    ensures Pass([b], b.inode, Whole) == ([b], [line])
  {
    assert [b][1..] == [] && [line][1..] == [];
    assert Pass([], b.inode, Whole) == ([], []);
    assert InsertedAll([], [line]) == InsertedAll(Inserted([], line), []) == [line] by { assert Inserted([], line) == [line]; }
    assert !AllContained([], [line]) by { assert !Contains([], [line][0]); }
    assert b.(spans := Trimmed(Whole, b.spans)) == b && [b] + [] == [b];
  }

  lemma FirstRetry(line: Span, inode: nat, now: int, due: int, remove: Remover)
    ensures Retried([], inode, line, now, due, remove) == [Bucket(due, 1, [line], [], inode)]
  {
    var b := Bucket(due, 1, [line], [], inode);
    assert LapseAll([], line, now, remove) == [] && DueRetries([], line, now) == 0;
    assert Noted([], inode, line, due, 1) == [b];
    LonePass(b, line);
  }

  /** One retry of the line at `now`, to be read again at `due`; until then `tried` has been noted for it. */
  datatype Round = Round(now: int, due: int, tried: seq<Span>)

  /** A file in which one line is retried again and again. */
  function Rounds(line: Span, inode: nat, rounds: seq<Round>, remove: Remover): seq<Bucket> {
    if rounds == [] then []
    else
      var round := rounds[|rounds| - 1];
      WithTried(Retried(Rounds(line, inode, rounds[..|rounds| - 1], remove), inode, line, round.now, round.due, remove), round.tried)
  }

  function WithTried(buckets: seq<Bucket>, tried: seq<Span>): seq<Bucket> {
    if buckets == [] then [] else [buckets[0].(tried := tried)] + WithTried(buckets[1..], tried)
  }

  /** As long as the line is due each time, every retry counts one more, so that none remain after five. */
  lemma {:induction false} RetriesCountDown(line: Span, inode: nat, rounds: seq<Round>, remove: Remover)
    requires Agrees(remove)
    requires forall i :: 0 <= i < |rounds| - 1 ==> rounds[i].due < rounds[i + 1].now
    ensures rounds != [] ==>
              var last := rounds[|rounds| - 1];
              Rounds(line, inode, rounds, remove) == [Bucket(last.due, |rounds|, [line], last.tried, inode)]
    ensures MostRetries(Rounds(line, inode, rounds, remove), inode, line) == |rounds|
  {
    if rounds != [] {
      var n := |rounds| - 1;
      var init, last := rounds[..n], rounds[n];
      RetriesCountDown(line, inode, init, remove);
      var before := Rounds(line, inode, init, remove);
      if init == [] {
        FirstRetry(line, inode, last.now, last.due, remove);
      } else {
        assert rounds[n - 1].due < rounds[n - 1 + 1].now;
        LoneRetry(before[0], line, last.now, last.due, remove);
      }
      WithTriedLone(Bucket(last.due, n + 1, [line], [], inode), last.tried);
      LoneCount(Bucket(last.due, n + 1, [line], last.tried, inode), line);
    }
  }

  lemma WithTriedLone(b: Bucket, tried: seq<Span>)
    ensures WithTried([b], tried) == [b.(tried := tried)]
  {
    assert [b][1..] == [] && WithTried([], tried) == [];
  }

  lemma LoneCount(b: Bucket, line: Span)
    requires b.spans == [line]
    ensures MostRetries([b], b.inode, line) == b.retries
  {
    assert Contains([line], line) by { assert [line][0] == line; }
    assert [b][..0] == [];
  }

  // ----- what retries and commits leave pending

  ghost predicate NothingLost(before: seq<Bucket>, after: seq<Bucket>, inode: nat, line: Span) {
    forall x :: Pending(before, inode, x) && !In(x, line) ==> Pending(after, inode, x)
  }

  ghost predicate NothingInvented(before: seq<Bucket>, after: seq<Bucket>, inode: nat, line: Span) {
    forall x :: Pending(after, inode, x) && !In(x, line) ==> Pending(before, inode, x)
  }

  /** Removing the line from any of the buckets keeps whatever lies outside it. */
  ghost predicate Frames(remove: Remover, buckets: seq<Bucket>, line: Span) {
    forall b, x :: b in buckets && Covers(b.spans, x) && !In(x, line) ==> Covers(remove(b.spans, line), x)
  }

  predicate Short(buckets: seq<Bucket>) {
    forall b :: b in buckets ==> |b.spans| <= 1
  }

  /** What removal does to a bucket of at most one span. */
  lemma ShortRemoval(b: Bucket, line: Span, remove: Remover)
    requires Agrees(remove) && |b.spans| <= 1
    ensures remove(b.spans, line) == if b.spans == [] then [] else RemovedOne(b.spans[0], line)
    ensures forall x :: Covers(b.spans, x) && !In(x, line) ==> Covers(remove(b.spans, line), x)
    ensures forall x :: line.start < x < line.end ==> !Covers(remove(b.spans, line), x)
    ensures forall x :: Covers(remove(b.spans, line), x) ==> Covers(b.spans, x) || InGap(b, line, x)
    ensures forall x :: InGap(b, line, x) ==> Covers(remove(b.spans, line), x)
  {
    if b.spans != [] {
      var y := b.spans[0];
      assert b.spans == [y];
      RemovedOneMeans(y, line);
      forall x | Covers(remove(b.spans, line), x) ensures Covers(b.spans, x) || InGap(b, line, x) {
        assert In(x, y) ==> In(x, b.spans[0]);
      }
      forall x | InGap(b, line, x) ensures Covers(remove(b.spans, line), x) { assert In(x, RemovedOne(y, line)[0]); }
    }
  }

  /** Between the end of the bucket's only span and the line beyond it. */
  predicate InGap(b: Bucket, line: Span, x: int) {
    |b.spans| == 1 && b.spans[0].end < x < line.start
  }

  lemma ShortFrames(remove: Remover, buckets: seq<Bucket>, line: Span)
    requires Agrees(remove) && Short(buckets)
    ensures Frames(remove, buckets, line)
  {
    forall b, x | b in buckets && Covers(b.spans, x) && !In(x, line) ensures Covers(remove(b.spans, line), x) {
      ShortRemoval(b, line, remove);
    }
  }

  function Committed(buckets: seq<Bucket>, inode: nat, line: Span, remove: Remover): seq<Bucket> {
    Pass(buckets, inode, Minus(line, remove)).0
  }

  /** A commit keeps pending whatever lies outside the line. */
  lemma CommitLosesNothing(buckets: seq<Bucket>, inode: nat, line: Span, remove: Remover)
    requires Frames(remove, buckets, line)
    ensures NothingLost(buckets, Committed(buckets, inode, line, remove), inode, line)
  {
    forall x | Pending(buckets, inode, x) && !In(x, line) ensures Pending(Committed(buckets, inode, line, remove), inode, x) {
      var b := KeptBucket(buckets, inode, Minus(line, remove), x);
      assert Covers(remove(b.spans, line), x);
    }
  }

  /** What is pending after a commit was pending, or lies between a bucket's only span and the line. */
  lemma CommittedFrom(buckets: seq<Bucket>, inode: nat, line: Span, remove: Remover, x: int)
    requires Agrees(remove) && Short(buckets) && Pending(Committed(buckets, inode, line, remove), inode, x)
    ensures !(line.start < x < line.end)
    ensures Pending(buckets, inode, x) || exists b :: b in buckets && b.inode == inode && InGap(b, line, x)
  {
    var b' :| b' in Committed(buckets, inode, line, remove) && b'.inode == inode && Covers(b'.spans, x);
    var b := OriginalBucket(buckets, inode, Minus(line, remove), b');
    ShortRemoval(b, line, remove);
  }

  /** Every byte between the only span of a bucket of the file and a line beyond it is pending anyway. */
  ghost predicate GapsPending(buckets: seq<Bucket>, inode: nat, line: Span) {
    forall b, x :: b in buckets && b.inode == inode && InGap(b, line, x) ==> Pending(buckets, inode, x)
  }

  /**
   A commit takes the inside of the line out of every bucket. It makes bytes
   pending that were not exactly when one lies between the only span of a bucket
   and the line.
   */
  lemma CommitInventsExactly(buckets: seq<Bucket>, inode: nat, line: Span, remove: Remover)
    requires Agrees(remove) && Short(buckets)
    ensures forall x :: line.start < x < line.end ==> !Pending(Committed(buckets, inode, line, remove), inode, x)
    ensures NothingInvented(buckets, Committed(buckets, inode, line, remove), inode, line) <==> GapsPending(buckets, inode, line)
  {
    var after := Committed(buckets, inode, line, remove);
    forall x | Pending(after, inode, x) ensures !(line.start < x < line.end) { CommittedFrom(buckets, inode, line, remove, x); }
    if GapsPending(buckets, inode, line) {
      forall x | Pending(after, inode, x) ensures Pending(buckets, inode, x) { CommittedFrom(buckets, inode, line, remove, x); }
    }
    if NothingInvented(buckets, after, inode, line) {
      forall b, x | b in buckets && b.inode == inode && InGap(b, line, x) ensures Pending(buckets, inode, x) {
        GapByteCommitted(buckets, inode, line, remove, b, x);
      }
    }
  }

  /** The bucket may be dropped, but only when a kept one reaches as far, and then that one grows. */
  lemma GapByteCommitted(buckets: seq<Bucket>, inode: nat, line: Span, remove: Remover, b: Bucket, x: int)
    requires Agrees(remove) && Short(buckets)
    requires b in buckets && b.inode == inode && InGap(b, line, x)
    ensures Pending(buckets, inode, x) || Pending(Committed(buckets, inode, line, remove), inode, x)
  {
    var last := b.spans[0].end;
    assert In(last, b.spans[0]);
    var k := KeptBucket(buckets, inode, Minus(line, remove), last);
    ShortRemoval(k, line, remove);
    if In(x, k.spans[0]) {
      assert Covers(k.spans, x);
    } else {
      assert InGap(k, line, x);
    }
  }

  lemma NotedPending(buckets: seq<Bucket>, inode: nat, line: Span, due: int, retries: nat, x: int)
    requires forall b :: b in buckets ==> b.inode == inode
    ensures Pending(Noted(buckets, inode, line, due, retries), inode, x) <==> Pending(buckets, inode, x) || In(x, line)
  {
    var noted, i := Noted(buckets, inode, line, due, retries), Slot(buckets, due, retries);
    assert In(x, line) <==> Covers([line], x) by { assert [line][0] == line; }
    assert i == |buckets| ==> noted[i] in noted && forall b :: b in noted <==> b in buckets || b == noted[i];
    if i < |buckets| { NotedInSlot(buckets, i, line, inode, x); }
  }

  lemma NotedInSlot(buckets: seq<Bucket>, i: nat, line: Span, inode: nat, x: int)
    requires i < |buckets| && forall b :: b in buckets ==> b.inode == inode
    ensures var b' := buckets[i].(spans := Inserted(buckets[i].spans, line));
            Pending(buckets[i := b'], inode, x) <==> Pending(buckets, inode, x) || In(x, line)
  {
    var b' := buckets[i].(spans := Inserted(buckets[i].spans, line));
    var noted := buckets[i := b'];
    InsertedCovers(buckets[i].spans, line, x);
    assert noted[i] == b' && buckets[i] in buckets;
    if b :| b in buckets && Covers(b.spans, x) {
      var j :| 0 <= j < |buckets| && buckets[j] == b;
      assert noted[j] == if j == i then b' else b;
    }
    if b :| b in noted && Covers(b.spans, x) {
      var j :| 0 <= j < |noted| && noted[j] == b;
      assert j != i ==> buckets[j] == b;
    }
  }

  /** After the due buckets have lapsed, one of them still holds the offset. */
  ghost predicate Remains(buckets: seq<Bucket>, line: Span, now: int, remove: Remover, x: int) {
    exists b :: b in buckets && Covers(Lapse(b, line, now, remove).spans, x)
  }

  /** After a retry the bytes of the line are pending, and whatever the lapsed buckets hold. */
  lemma RetriedPendingExactly(buckets: seq<Bucket>, inode: nat, line: Span, now: int, due: int, remove: Remover, x: int)
    requires Counted(buckets, inode)
    ensures Pending(Retried(buckets, inode, line, now, due, remove), inode, x) <==>
            In(x, line) || Remains(buckets, line, now, remove, x)
  {
    var lapsed := LapseAll(buckets, line, now, remove);
    LapsedPending(buckets, inode, line, now, remove, x);
    PassedPending(lapsed, inode, line, due, DueRetries(buckets, line, now) + 1, Retried(buckets, inode, line, now, due, remove), x);
  }

  lemma LapsedPending(buckets: seq<Bucket>, inode: nat, line: Span, now: int, remove: Remover, x: int)
    requires Counted(buckets, inode)
    ensures Counted(LapseAll(buckets, line, now, remove), inode)
    ensures Pending(LapseAll(buckets, line, now, remove), inode, x) <==> Remains(buckets, line, now, remove, x)
  {
    var lapsed := LapseAll(buckets, line, now, remove);
    if b :| b in buckets && Covers(Lapse(b, line, now, remove).spans, x) {
      var j :| 0 <= j < |buckets| && buckets[j] == b;
      assert lapsed[j] in lapsed;
    }
  }

  lemma PassedPending(buckets: seq<Bucket>, inode: nat, line: Span, due: int, retries: nat, after: seq<Bucket>, x: int)
    requires Counted(buckets, inode)
    requires after == Pass(Noted(buckets, inode, line, due, retries), inode, Whole).0
    ensures Pending(after, inode, x) <==> Pending(buckets, inode, x) || In(x, line)
  {
    NotedPending(buckets, inode, line, due, retries, x);
    PassKeepsPending(Noted(buckets, inode, line, due, retries), inode, x);
  }

  /** A retry loses no pending byte, of the line or any other. */
  lemma RetryLosesNothing(buckets: seq<Bucket>, inode: nat, line: Span, now: int, due: int, remove: Remover)
    requires Counted(buckets, inode) && Frames(remove, buckets, line)
    ensures forall x :: Pending(buckets, inode, x) ==> Pending(Retried(buckets, inode, line, now, due, remove), inode, x)
  {
    forall x | Pending(buckets, inode, x) ensures Pending(Retried(buckets, inode, line, now, due, remove), inode, x) {
      RetriedPendingExactly(buckets, inode, line, now, due, remove, x);
      var b :| b in buckets && b.inode == inode && Covers(b.spans, x);
      assert In(x, line) || Covers(Lapse(b, line, now, remove).spans, x);
    }
  }

  /** Every byte between the only span of a bucket that lapses and a line beyond it is pending anyway. */
  ghost predicate LapseGapsPending(buckets: seq<Bucket>, inode: nat, line: Span, now: int) {
    forall b, x :: b in buckets && b.time < now && !Contains(b.tried, line) && InGap(b, line, x) ==> Pending(buckets, inode, x)
  }

  /** A retry makes bytes outside the line pending exactly when they lie between a lapsing bucket's only span and the line. */
  lemma RetryInventsExactly(buckets: seq<Bucket>, inode: nat, line: Span, now: int, due: int, remove: Remover)
    requires Agrees(remove) && Short(buckets) && Counted(buckets, inode)
    ensures NothingInvented(buckets, Retried(buckets, inode, line, now, due, remove), inode, line) <==>
            LapseGapsPending(buckets, inode, line, now)
  {
    var after := Retried(buckets, inode, line, now, due, remove);
    if LapseGapsPending(buckets, inode, line, now) {
      forall x | Pending(after, inode, x) && !In(x, line) ensures Pending(buckets, inode, x) {
        RetriedPendingExactly(buckets, inode, line, now, due, remove, x);
        var b :| b in buckets && Covers(Lapse(b, line, now, remove).spans, x);
        ShortRemoval(b, line, remove);
      }
    }
    if NothingInvented(buckets, after, inode, line) {
      forall b, x | b in buckets && b.time < now && !Contains(b.tried, line) && InGap(b, line, x)
        ensures Pending(buckets, inode, x)
      {
        ShortRemoval(b, line, remove);
        assert Covers(Lapse(b, line, now, remove).spans, x);
        RetriedPendingExactly(buckets, inode, line, now, due, remove, x);
      }
    }
  }

  lemma RetryEffects(buckets: seq<Bucket>, inode: nat, line: Span, now: int, due: int, remove: Remover)
    requires Agrees(remove) && Counted(buckets, inode)
    ensures var after := Retried(buckets, inode, line, now, due, remove);
            && (Frames(remove, buckets, line) ==> NothingLost(buckets, after, inode, line))
            && (Short(buckets) ==>
                  && NothingLost(buckets, after, inode, line)
                  && (NothingInvented(buckets, after, inode, line) <==> LapseGapsPending(buckets, inode, line, now)))
  {
    if Short(buckets) {
      ShortFrames(remove, buckets, line);
      RetryInventsExactly(buckets, inode, line, now, due, remove);
    }
    if Frames(remove, buckets, line) { RetryLosesNothing(buckets, inode, line, now, due, remove); }
  }

  lemma CommitEffects(buckets: seq<Bucket>, inode: nat, line: Span, remove: Remover)
    requires Agrees(remove)
    ensures var after := Committed(buckets, inode, line, remove);
            && (Frames(remove, buckets, line) ==> NothingLost(buckets, after, inode, line))
            && (Short(buckets) ==>
                  && NothingLost(buckets, after, inode, line)
                  && (NothingInvented(buckets, after, inode, line) <==> GapsPending(buckets, inode, line)))
  {
    if Short(buckets) {
      ShortFrames(remove, buckets, line);
      CommitInventsExactly(buckets, inode, line, remove);
    }
    if Frames(remove, buckets, line) { CommitLosesNothing(buckets, inode, line, remove); }
  }

  // ----- what removal does to the other lines of a bucket

  /** How `other`, a line within the span `x`, comes out of the removal of `line`. */
  predicate KeptApart(x: Span, line: Span, other: Span) {
    || line.end <= x.start
    || other.end < line.start
    || (line.end < x.end && (|| line.end <= other.start
                             || (x.start < line.start && (other.end <= line.start || line.end <= line.start + 1))))
  }

  /** Another line of the bucket's only span is still held by one span exactly on that condition. */
  lemma RemovalKeepsLine(b: Bucket, line: Span, other: Span, remove: Remover)
    requires Agrees(remove) && |b.spans| == 1 && Contains(b.spans, other)
    ensures Contains(remove(b.spans, line), other) <==> KeptApart(b.spans[0], line, other)
  {
    var x := b.spans[0];
    assert b.spans == [x];
    var r := RemovedOne(x, line);
    if KeptApart(x, line, other) {
      assert |r| > 0 && ((r[0].start <= other.start && other.end <= r[0].end)
                         || (|r| > 1 && r[1].start <= other.start && other.end <= r[1].end));
    }
  }

  /** Lines that follow each other share an end: removing the earlier one keeps the later one, but not always the other way round. */
  lemma NeighboursKept(b: Bucket, start: nat, mid: nat, end: nat, remove: Remover)
    requires Agrees(remove) && |b.spans| == 1 && start < mid < end < U64_MAX
    requires b.spans[0].start <= start && end <= b.spans[0].end
    ensures Contains(remove(b.spans, Interval(start, mid)), Interval(mid, end))
    ensures Contains(remove(b.spans, Interval(mid, end)), Interval(start, mid)) <==> end < b.spans[0].end
  {
    assert b.spans[0].start <= mid && end <= b.spans[0].end;
    assert Contains(b.spans, Interval(mid, end)) && Contains(b.spans, Interval(start, mid));
    RemovalKeepsLine(b, Interval(start, mid), Interval(mid, end), remove);
    RemovalKeepsLine(b, Interval(mid, end), Interval(start, mid), remove);
  }

  /** A bucket that the commit keeps, and in which the other line is kept apart, still counts that line's retries. */
  lemma CommitKeepsCount(buckets: seq<Bucket>, inode: nat, line: Span, other: Span, remove: Remover, b: Bucket)
    requires Agrees(remove) && b in buckets && b.inode == inode && |b.spans| == 1
    requires b.(spans := remove(b.spans, line)) in Committed(buckets, inode, line, remove)
    requires Contains(b.spans, other) && KeptApart(b.spans[0], line, other)
    ensures MostRetries(Committed(buckets, inode, line, remove), inode, other) >= b.retries
  {
    RemovalKeepsLine(b, line, other, remove);
    MostRetriesAtLeast(Committed(buckets, inode, line, remove), inode, other, b.(spans := remove(b.spans, line)));
  }

  /** For a single bucket: the other line keeps its count, or is taken for one that was never retried. */
  lemma CommitForgetsCount(b: Bucket, line: Span, other: Span, remove: Remover)
    requires Agrees(remove) && |b.spans| == 1 && Contains(b.spans, other)
    ensures MostRetries(Committed([b], b.inode, line, remove), b.inode, other) ==
            if KeptApart(b.spans[0], line, other) then b.retries else 0
  {
    var left := remove(b.spans, line);
    RemovalKeepsLine(b, line, other, remove);
    assert [b][1..] == [] && Pass([], b.inode, Minus(line, remove)) == ([], []);
    assert !AllContained([], b.spans) by { assert !Contains([], b.spans[0]); }
    var after := Committed([b], b.inode, line, remove);
    assert after == if left == [] then [] else [b.(spans := left)];
    if left != [] { assert after[..0] == []; }
  }

  /** For one bucket the condition is about ends only: committing a line beyond its span invents pending bytes. */
  lemma CommitBeyondOneBucket(b: Bucket, line: Span, remove: Remover)
    requires Agrees(remove) && |b.spans| == 1
    ensures NothingInvented([b], Committed([b], b.inode, line, remove), b.inode, line) <==> line.start <= b.spans[0].end + 1
  {
    CommitInventsExactly([b], b.inode, line, remove);
    var next := b.spans[0].end + 1;
    assert b in [b] && !Covers(b.spans, next);
    assert !Pending([b], b.inode, next);
    assert next < line.start ==> InGap(b, line, next);
  }

  // ----- the gaps that due buckets open

  /** Each span of a due bucket that was not tried yet is marked tried and taken out of the file's offsets. */
  function Opened(spans: seq<Span>, tried: seq<Span>, offsets: seq<Span>, remove: Remover): (seq<Span>, seq<Span>) {
    if spans == [] then (tried, offsets)
    else
      var (tried', offsets') := Opened(spans[..|spans| - 1], tried, offsets, remove);
      var s := spans[|spans| - 1];
      if Contains(tried', s) then (tried', offsets') else (Inserted(tried', s), remove(offsets', s))
  }

  lemma {:induction false} OpenedContains(spans: seq<Span>, tried: seq<Span>, offsets: seq<Span>, remove: Remover, o: Span)
    requires Contains(tried, o) || o in spans
    ensures Contains(Opened(spans, tried, offsets, remove).0, o)
  {
    if spans != [] {
      var init, s := spans[..|spans| - 1], spans[|spans| - 1];
      var (tried', _) := Opened(init, tried, offsets, remove);
      assert spans == init + [s];
      if Contains(tried, o) || o in init { OpenedContains(init, tried, offsets, remove, o); }
      if o == s { assert [s][0] == s; assert Contains([s], o); }
      if !Contains(tried', s) { InsertedContains(tried', s, o); }
    }
  }

  /** A span opens its gap once: a second pass over the same bucket leaves tried spans and offsets alone. */
  lemma {:induction false} OpenedOnce(spans: seq<Span>, tried: seq<Span>, offsets: seq<Span>, remove: Remover)
    requires AllContained(tried, spans)
    ensures Opened(spans, tried, offsets, remove) == (tried, offsets)
  {
    if spans != [] {
      var init := spans[..|spans| - 1];
      assert AllContained(tried, init) by { forall i | 0 <= i < |init| ensures Contains(tried, init[i]) { assert init[i] == spans[i]; } }
      OpenedOnce(init, tried, offsets, remove);
      assert Contains(tried, spans[|spans| - 1]);
    }
  }

  lemma OpenedHolds(spans: seq<Span>, tried: seq<Span>, offsets: seq<Span>, remove: Remover)
    ensures AllContained(Opened(spans, tried, offsets, remove).0, spans)
  {
    forall i | 0 <= i < |spans| ensures Contains(Opened(spans, tried, offsets, remove).0, spans[i]) {
      OpenedContains(spans, tried, offsets, remove, spans[i]);
    }
  }

  lemma OpenedTwice(spans: seq<Span>, tried: seq<Span>, offsets: seq<Span>, remove: Remover)
    ensures var (tried', offsets') := Opened(spans, tried, offsets, remove);
            Opened(spans, tried', offsets', remove) == (tried', offsets')
  {
    var (tried', offsets') := Opened(spans, tried, offsets, remove);
    OpenedHolds(spans, tried, offsets, remove);
    OpenedOnce(spans, tried', offsets', remove);
  }

  function BeyondEnd(spans: seq<Span>, len: nat): seq<Span> {
    if spans == [] then []
    else BeyondEnd(spans[..|spans| - 1], len) + if spans[|spans| - 1].start > len then [spans[|spans| - 1]] else []
  }

  function RemovedAll(v: seq<Span>, es: seq<Span>, remove: Remover): seq<Span> {
    if es == [] then v else remove(RemovedAll(v, es[..|es| - 1], remove), es[|es| - 1])
  }

  /** A bucket that is due and has something to open in this file. */
  predicate Opens(b: Bucket, inode: nat, now: int) { b.time <= now && b.inode == inode && b.spans != [] }

  /** One due bucket: its untried spans are opened, those beyond the end of the file forgotten. */
  function OpenedBucket(b: Bucket, offsets: seq<Span>, len: nat, remove: Remover): (Bucket, seq<Span>) {
    var (tried, left) := Opened(b.spans, b.tried, offsets, remove);
    (b.(tried := tried, spans := RemovedAll(b.spans, BeyondEnd(b.spans, len), remove)), left)
  }

  /** The loop over all buckets: those that are due and empty, or of another file, are dropped. */
  function OpenedAll(buckets: seq<Bucket>, inode: nat, offsets: seq<Span>, now: int, len: nat, remove: Remover): (seq<Bucket>, seq<Span>) {
    if buckets == [] then ([], offsets)
    else
      var (kept, left) := OpenedAll(buckets[..|buckets| - 1], inode, offsets, now, len, remove);
      var b := buckets[|buckets| - 1];
      if Opens(b, inode, now) then
        var (b', left') := OpenedBucket(b, left, len, remove);
        (kept + [b'], left')
      else if b.time <= now then (kept, left)
      else (kept + [b], left)
  }

  lemma {:induction false} OpenedAllCounted(buckets: seq<Bucket>, inode: nat, offsets: seq<Span>, now: int, len: nat, remove: Remover)
    requires Counted(buckets, inode)
    ensures Counted(OpenedAll(buckets, inode, offsets, now, len, remove).0, inode)
  {
    if buckets != [] { OpenedAllCounted(buckets[..|buckets| - 1], inode, offsets, now, len, remove); }
  }

  /** Exactly the spans that start beyond the end of the file. */
  lemma {:induction false} BeyondEndExactly(spans: seq<Span>, len: nat, e: Span)
    ensures e in BeyondEnd(spans, len) <==> e in spans && e.start > len
  {
    if spans != [] {
      assert spans == spans[..|spans| - 1] + [spans[|spans| - 1]];
      BeyondEndExactly(spans[..|spans| - 1], len, e);
    }
  }

  /** A line that starts beyond the end of the file is forgotten, any other is kept. */
  lemma LineForgottenExactly(b: Bucket, offsets: seq<Span>, len: nat, remove: Remover)
    requires Agrees(remove) && |b.spans| == 1 && b.spans[0].start < b.spans[0].end
    ensures OpenedBucket(b, offsets, len, remove).0.spans == if b.spans[0].start > len then [] else b.spans
  {
    var x := b.spans[0];
    assert b.spans == [x] && b.spans[..0] == [] && [x][..0] == [];
    assert BeyondEnd([], len) == [] && BeyondEnd(b.spans, len) == if x.start > len then [x] else [];
    assert RemovedAll(b.spans, [], remove) == [x];
    assert RemovedAll(b.spans, [x], remove) == remove([x], x) == RemovedOne(x, x) == [];
  }

  /** What the loop keeps: what is not due as it is, and of what is due the file's own, opened. */
  lemma {:induction false} OpenedAllKeeps(buckets: seq<Bucket>, inode: nat, offsets: seq<Span>, now: int, len: nat, remove: Remover)
    ensures var kept := OpenedAll(buckets, inode, offsets, now, len, remove).0;
            && (forall b :: b in buckets && b.time > now ==> b in kept)
            && (forall b :: b in kept && b.time > now ==> b in buckets)
            && (forall b :: b in kept && b.time <= now ==> b.inode == inode)
            && (forall b :: b in buckets && b.time <= now && b.inode == inode && b.spans != [] ==>
                  exists b' :: b' in kept && b'.time == b.time && b'.retries == b.retries && b'.inode == inode && AllContained(b'.tried, b.spans))
  {
    if buckets != [] {
      var init, b := buckets[..|buckets| - 1], buckets[|buckets| - 1];
      assert buckets == init + [b];
      OpenedAllKeeps(init, inode, offsets, now, len, remove);
      if Opens(b, inode, now) {
        var left := OpenedAll(init, inode, offsets, now, len, remove).1;
        var b' := OpenedBucket(b, left, len, remove).0;
        OpenedHolds(b.spans, b.tried, left, remove);
        assert b' in OpenedAll(buckets, inode, offsets, now, len, remove).0;
      }
    }
  }

  /** Nothing is left to open or to drop. */
  predicate AllOpened(buckets: seq<Bucket>, inode: nat, now: int, len: nat) {
    forall b :: b in buckets && b.time <= now ==> Opens(b, inode, now) && AllContained(b.tried, b.spans) && BeyondEnd(b.spans, len) == []
  }

  lemma {:induction false} OpenedStays(buckets: seq<Bucket>, inode: nat, offsets: seq<Span>, now: int, len: nat, remove: Remover)
    requires AllOpened(buckets, inode, now, len)
    ensures OpenedAll(buckets, inode, offsets, now, len, remove) == (buckets, offsets)
  {
    if buckets != [] {
      var init, b := buckets[..|buckets| - 1], buckets[|buckets| - 1];
      assert buckets == init + [b];
      OpenedStays(init, inode, offsets, now, len, remove);
      if b.time <= now {
        OpenedOnce(b.spans, b.tried, offsets, remove);
        assert b.(tried := b.tried, spans := b.spans) == b;
      }
    }
  }

  lemma {:induction false} OpenedAllOpens(buckets: seq<Bucket>, inode: nat, offsets: seq<Span>, now: int, len: nat, remove: Remover)
    requires forall b :: b in buckets ==> BeyondEnd(b.spans, len) == []
    ensures AllOpened(OpenedAll(buckets, inode, offsets, now, len, remove).0, inode, now, len)
  {
    if buckets != [] {
      var init, b := buckets[..|buckets| - 1], buckets[|buckets| - 1];
      assert buckets == init + [b];
      OpenedAllOpens(init, inode, offsets, now, len, remove);
      if Opens(b, inode, now) {
        var left := OpenedAll(init, inode, offsets, now, len, remove).1;
        OpenedHolds(b.spans, b.tried, left, remove);
      }
    }
  }

  /** Reading the file again opens no gap twice, as long as no retried line lies beyond the end of the file. */
  lemma GapsOpenOnce(buckets: seq<Bucket>, inode: nat, offsets: seq<Span>, now: int, len: nat, remove: Remover)
    requires forall b :: b in buckets ==> BeyondEnd(b.spans, len) == []
    ensures var (kept, left) := OpenedAll(buckets, inode, offsets, now, len, remove);
            OpenedAll(kept, inode, left, now, len, remove) == (kept, left)
  {
    var (kept, left) := OpenedAll(buckets, inode, offsets, now, len, remove);
    OpenedAllOpens(buckets, inode, offsets, now, len, remove);
    OpenedStays(kept, inode, left, now, len, remove);
  }

  /** Every due bucket of the file has nothing untried left, though some may have been emptied. */
  predicate AllTried(buckets: seq<Bucket>, inode: nat, now: int) {
    forall b :: b in buckets && Opens(b, inode, now) ==> AllContained(b.tried, b.spans)
  }

  lemma {:induction false} TriedOpensNothing(buckets: seq<Bucket>, inode: nat, offsets: seq<Span>, now: int, len: nat, remove: Remover)
    requires AllTried(buckets, inode, now)
    ensures OpenedAll(buckets, inode, offsets, now, len, remove).1 == offsets
  {
    if buckets != [] {
      var init, b := buckets[..|buckets| - 1], buckets[|buckets| - 1];
      assert buckets == init + [b];
      TriedOpensNothing(init, inode, offsets, now, len, remove);
      if Opens(b, inode, now) { OpenedOnce(b.spans, b.tried, offsets, remove); }
    }
  }

  /** Forgetting the only span leaves it or nothing. */
  lemma ForgottenOrKept(b: Bucket, len: nat, remove: Remover)
    requires Agrees(remove) && |b.spans| <= 1
    ensures var left := RemovedAll(b.spans, BeyondEnd(b.spans, len), remove);
            left == [] || left == b.spans
  {
    if b.spans != [] {
      var x := b.spans[0];
      assert b.spans == [x] && b.spans[..0] == [] && [x][..0] == [];
      assert BeyondEnd(b.spans, len) == if x.start > len then [x] else [];
    }
  }

  lemma OpenedIsTried(b: Bucket, offsets: seq<Span>, len: nat, remove: Remover)
    requires Agrees(remove) && |b.spans| <= 1
    ensures var b' := OpenedBucket(b, offsets, len, remove).0; AllContained(b'.tried, b'.spans)
  {
    OpenedHolds(b.spans, b.tried, offsets, remove);
    ForgottenOrKept(b, len, remove);
  }

  lemma {:induction false} OpenedAllTried(buckets: seq<Bucket>, inode: nat, offsets: seq<Span>, now: int, len: nat, remove: Remover)
    requires Agrees(remove) && Short(buckets)
    ensures AllTried(OpenedAll(buckets, inode, offsets, now, len, remove).0, inode, now)
  {
    if buckets != [] {
      var init, b := buckets[..|buckets| - 1], buckets[|buckets| - 1];
      assert buckets == init + [b];
      OpenedAllTried(init, inode, offsets, now, len, remove);
      if Opens(b, inode, now) {
        OpenedIsTried(b, OpenedAll(init, inode, offsets, now, len, remove).1, len, remove);
      }
    }
  }

  /** With buckets of at most one span no gap opens twice, wherever the retried lines lie. */
  lemma ShortGapsOpenOnce(buckets: seq<Bucket>, inode: nat, offsets: seq<Span>, now: int, len: nat, remove: Remover)
    requires Agrees(remove) && Short(buckets)
    ensures var (kept, left) := OpenedAll(buckets, inode, offsets, now, len, remove);
            OpenedAll(kept, inode, left, now, len, remove).1 == left
  {
    var (kept, left) := OpenedAll(buckets, inode, offsets, now, len, remove);
    OpenedAllTried(buckets, inode, offsets, now, len, remove);
    TriedOpensNothing(kept, inode, left, now, len, remove);
  }

  /**
   A retried line `s..e` of a file read up to `n`, alone in a due bucket: the file
   is read again from the start of the line exactly when the line is the first one,
   or is at least two bytes long and not the last one.
   */
  lemma RetriedLineIsReadAgain(b: Bucket, s: nat, e: nat, n: nat, now: int, len: nat, remove: Remover)
    requires Agrees(remove) && s < e <= n < U64_MAX
    requires b.time <= now && b.spans == [Interval(s, e)] && b.tried == []
    ensures var left := OpenedAll([b], b.inode, [Interval(0, n)], now, len, remove).1;
            StrictStarts(left) && (FirstGap(left).start == s <==> s == 0 || (s + 2 <= e && e < n))
  {
    var line := Interval(s, e);
    assert [b][..0] == [] && b.spans[..0] == [];
    assert !Contains([], line);
    assert Opened(b.spans, [], [Interval(0, n)], remove).1 == RemovedOne(Interval(0, n), line);
    RetryReopensLine(s, e, n);
  }

  // ----- dropping marked buckets, the loop running upwards

  lemma {:induction false} ErasedAppend(s: seq<Bucket>, r: seq<nat>, b: Bucket)
    requires Descending(r, 0, |s|)
    ensures Erased(s + [b], r) == Erased(s, r) + [b]
  {
    if r != [] {
      ErasedAppend(s, r[..|r| - 1], b);
      ErasedFits(s, r[..|r| - 1]);
      ErasedFits(s, r);
    }
  }

  lemma {:induction false} ErasedLast(s: seq<Bucket>, r: seq<nat>, b: Bucket)
    ensures Erased(s + [b], [|s|] + r) == Erased(s, r)
  {
    var all := [|s|] + r;
    if r == [] {
      assert all[..0] == [] && Without(s + [b], |s|) == s;
    } else {
      assert all[..|all| - 1] == [|s|] + r[..|r| - 1];
      ErasedLast(s, r[..|r| - 1], b);
    }
  }

  /** The buckets before `i` have been opened, or marked, last one first. */
  ghost predicate OpenedUpTo(before: seq<Bucket>, work: seq<Bucket>, i: nat, removeList: seq<nat>, inode: nat,
                             offsets: seq<Span>, left: seq<Span>, now: int, len: nat, remove: Remover)
    requires i <= |before|
  {
    && |work| == |before| && work[i..] == before[i..] && Descending(removeList, 0, i)
    && OpenedAll(before[..i], inode, offsets, now, len, remove) == (Erased(work[..i], removeList), left)
  }

  lemma OpenedSlices(before: seq<Bucket>, work: seq<Bucket>, i: nat, b': Bucket)
    requires i < |before| == |work| && work[i..] == before[i..]
    ensures work[i] == before[i] && work[i + 1..] == before[i + 1..]
    ensures before[..i + 1] == before[..i] + [before[i]] && before[..i + 1][..i] == before[..i]
    ensures work[..i + 1] == work[..i] + [before[i]]
    ensures work[i := b'][..i + 1] == work[..i] + [b'] && work[i := b'][i + 1..] == before[i + 1..]
  {
    assert work[i..][0] == before[i..][0] && before[i..][1..] == before[i + 1..] && work[i..][1..] == work[i + 1..];
  }

  lemma OpenNext(before: seq<Bucket>, work: seq<Bucket>, i: nat, removeList: seq<nat>, inode: nat,
                 offsets: seq<Span>, left: seq<Span>, now: int, len: nat, remove: Remover)
    requires i < |before| && OpenedUpTo(before, work, i, removeList, inode, offsets, left, now, len, remove)
    requires Opens(before[i], inode, now)
    ensures var (b', left') := OpenedBucket(before[i], left, len, remove);
            OpenedUpTo(before, work[i := b'], i + 1, removeList, inode, offsets, left', now, len, remove)
  {
    var (b', _) := OpenedBucket(before[i], left, len, remove);
    OpenedSlices(before, work, i, b');
    ErasedAppend(work[..i], removeList, b');
  }

  lemma DropNext(before: seq<Bucket>, work: seq<Bucket>, i: nat, removeList: seq<nat>, inode: nat,
                 offsets: seq<Span>, left: seq<Span>, now: int, len: nat, remove: Remover)
    requires i < |before| && OpenedUpTo(before, work, i, removeList, inode, offsets, left, now, len, remove)
    requires before[i].time <= now && !Opens(before[i], inode, now)
    ensures OpenedUpTo(before, work, i + 1, [i] + removeList, inode, offsets, left, now, len, remove)
  {
    OpenedSlices(before, work, i, before[i]);
    ErasedLast(work[..i], removeList, before[i]);
  }

  lemma KeepNext(before: seq<Bucket>, work: seq<Bucket>, i: nat, removeList: seq<nat>, inode: nat,
                 offsets: seq<Span>, left: seq<Span>, now: int, len: nat, remove: Remover)
    requires i < |before| && OpenedUpTo(before, work, i, removeList, inode, offsets, left, now, len, remove)
    requires before[i].time > now
    ensures OpenedUpTo(before, work, i + 1, removeList, inode, offsets, left, now, len, remove)
  {
    OpenedSlices(before, work, i, before[i]);
    ErasedAppend(work[..i], removeList, before[i]);
  }

  /** Put the line into the first bucket that fits, or into a new one. */
  method NoteLine(buckets: seq<Bucket>, inode: nat, line: Span, due: int, retries: nat) returns (out: seq<Bucket>)
    ensures out == Noted(buckets, inode, line, due, retries)
  {
    var slot := 0;
    while slot < |buckets| && !Matches(buckets[slot], due, retries)
      invariant slot <= |buckets| && Slot(buckets, due, retries) == slot + Slot(buckets[slot..], due, retries)
    {
      assert buckets[slot..][1..] == buckets[slot + 1..];
      slot := slot + 1;
    }
    if slot < |buckets| {
      out := buckets[slot := buckets[slot].(spans := Inserted(buckets[slot].spans, line))];
    } else {
      out := buckets + [Bucket(due, retries, [line], [], inode)];
    }
  }

  class TailedFile {
    const remove: Remover
    var inode: nat
    var buckets: seq<Bucket>
    var offsets: seq<Span>

    ghost predicate Valid()
      reads this
    {
      Counted(buckets, inode) && Agrees(remove)
    }

    constructor (inode: nat, offsets: seq<Span>, remove: Remover)
      requires Agrees(remove)
      ensures Valid() && buckets == [] && this.inode == inode && this.offsets == offsets && this.remove == remove
    {
      this.inode, this.offsets, this.remove, this.buckets := inode, offsets, remove, [];
    }

    /** The result is an unsigned difference; it never wraps. */
    method RetriesRemaining(line: Span) returns (r: nat)
      requires Valid()
      ensures r == MAX_RETRIES - MostRetries(buckets, inode, line)
    {
      var retries: nat := 0;
      for i := 0 to |buckets|
        invariant retries == MostRetries(buckets[..i], inode, line)
      {
        assert buckets[..i + 1][..i] == buckets[..i];
        if buckets[i].inode == inode && Contains(buckets[i].spans, line) {
          retries := Max(retries, buckets[i].retries);
        }
      }
      assert buckets[..|buckets|] == buckets;
      DueIsBounded(buckets, inode, line, 0);
      r := MAX_RETRIES - retries;
    }

    /** The line driver calls it only while retries remain (bin/src/_main.rs:680-694), which keeps the counts in range. */
    method Retry(line: Span, now: int, due: int) returns (sendRetry: bool)
      requires Valid()
      modifies `buckets
      ensures buckets == Retried(old(buckets), inode, line, now, due, remove)
      ensures Valid() <==> DueRetries(old(buckets), line, now) < MAX_RETRIES
      ensures MostRetries(old(buckets), inode, line) < MAX_RETRIES ==> Valid()
      ensures sendRetry == Settled(old(buckets), now)
      ensures AllPending(buckets, inode, line)
      ensures Frames(remove, old(buckets), line) ==> NothingLost(old(buckets), buckets, inode, line)
      ensures Short(old(buckets)) ==>
                && NothingLost(old(buckets), buckets, inode, line)
                && (NothingInvented(old(buckets), buckets, inode, line) <==> LapseGapsPending(old(buckets), inode, line, now))
    {
      RetriedCountedExactly(buckets, inode, line, now, due, remove);
      DueIsBounded(buckets, inode, line, now);
      RetriedAllPending(buckets, inode, line, now, due, remove);
      RetryEffects(buckets, inode, line, now, due, remove);
      sendRetry, buckets := Rearrange(line, now, due);
    }

    /** The three loops of `retry`. */
    method Rearrange(line: Span, now: int, due: int) returns (sendRetry: bool, out: seq<Bucket>)
      ensures out == Retried(buckets, inode, line, now, due, remove) && sendRetry == Settled(buckets, now)
    {
      var retries: nat;
      sendRetry, retries, out := LapseDue(line, now);
      out := NoteLine(out, inode, line, due, retries + 1);
      out := CoalesceBuckets(out, inode, Whole);
    }

    /** First loop of `retry`: read the counts of the due buckets and take the line out of them. */
    method LapseDue(line: Span, now: int) returns (sendRetry: bool, retries: nat, out: seq<Bucket>)
      ensures sendRetry == Settled(buckets, now) && retries == DueRetries(buckets, line, now)
      ensures out == LapseAll(buckets, line, now, remove)
    {
      sendRetry, retries, out := true, 0, [];
      for i := 0 to |buckets|
        invariant sendRetry == Settled(buckets[..i], now) && retries == DueRetries(buckets[..i], line, now)
        invariant out == LapseAll(buckets[..i], line, now, remove)
      {
        var b := buckets[i];
        assert buckets[..i + 1][..i] == buckets[..i] && buckets[..i + 1][i] == b;
        if b.time < now {
          sendRetry := b.tried == b.spans;
          if Contains(b.spans, line) {
            retries := Max(retries, b.retries);
          }
          if !Contains(b.tried, line) {
            b := b.(spans := remove(b.spans, line));
          }
        }
        out := out + [b];
      }
      assert buckets[..|buckets|] == buckets;
    }

    method Commit(line: Span)
      requires Valid()
      modifies `buckets
      ensures Valid() && buckets == Committed(old(buckets), inode, line, remove)
      ensures Frames(remove, old(buckets), line) ==> NothingLost(old(buckets), buckets, inode, line)
      ensures Short(old(buckets)) ==>
                && NothingLost(old(buckets), buckets, inode, line)
                && (NothingInvented(old(buckets), buckets, inode, line) <==> GapsPending(old(buckets), inode, line))
    {
      CommitEffects(buckets, inode, line, remove);
      PassCounted(buckets, inode, Minus(line, remove));
      buckets := CoalesceBuckets(buckets, inode, Minus(line, remove));
    }

    /** The loop over the buckets at the start of `tail`, in a file of `len` bytes. */
    method OpenGaps(now: int, len: nat)
      requires Valid()
      modifies `buckets, `offsets
      ensures Valid()
      ensures (buckets, offsets) == OpenedAll(old(buckets), inode, old(offsets), now, len, remove)
    {
      ghost var before := buckets;
      var removeList: seq<nat> := [];
      OpenedAllCounted(before, inode, offsets, now, len, remove);
      for i := 0 to |buckets|
        invariant OpenedUpTo(before, buckets, i, removeList, inode, old(offsets), offsets, now, len, remove)
      {
        OpenedSlices(before, buckets, i, before[i]);
        if buckets[i].time <= now {
          if buckets[i].inode != inode || buckets[i].spans == [] {
            DropNext(before, buckets, i, removeList, inode, old(offsets), offsets, now, len, remove);
            removeList := [i] + removeList;
          } else {
            OpenNext(before, buckets, i, removeList, inode, old(offsets), offsets, now, len, remove);
            OpenBucket(i, len);
          }
        } else {
          KeepNext(before, buckets, i, removeList, inode, old(offsets), offsets, now, len, remove);
        }
      }
      assert before[..|before|] == before && buckets[..|buckets|] == buckets;
      buckets := EraseAll(buckets, removeList);
    }

    /** The spans of one due bucket. */
    method OpenBucket(i: nat, len: nat)
      requires i < |buckets|
      modifies `buckets, `offsets
      ensures var (b, left) := OpenedBucket(old(buckets)[i], old(offsets), len, remove);
              offsets == left && buckets == old(buckets)[i := b]
    {
      var spans, tried := buckets[i].spans, buckets[i].tried;
      var removeList: seq<Span> := [];
      for k := 0 to |spans|
        invariant buckets == old(buckets)
        invariant (tried, offsets) == Opened(spans[..k], buckets[i].tried, old(offsets), remove)
        invariant removeList == BeyondEnd(spans[..k], len)
      {
        assert spans[..k + 1][..k] == spans[..k];
        if spans[k].start > len {
          removeList := removeList + [spans[k]];
        }
        if !Contains(tried, spans[k]) {
          tried := Inserted(tried, spans[k]);
          offsets := remove(offsets, spans[k]);
        }
      }
      assert spans[..|spans|] == spans;
      var left := spans;
      for k := 0 to |removeList|
        invariant buckets == old(buckets) && left == RemovedAll(spans, removeList[..k], remove)
        invariant offsets == Opened(spans, buckets[i].tried, old(offsets), remove).1
      {
        assert removeList[..k + 1][..k] == removeList[..k];
        left := remove(left, removeList[k]);
      }
      assert removeList[..|removeList|] == removeList;
      buckets := buckets[i := buckets[i].(tried := tried, spans := left)];
    }

    /** The file was replaced: nothing of the old one is kept. */
    method Reopen(newInode: nat)
      requires Valid()
      modifies this
      ensures Valid() && inode == newInode && buckets == [] && offsets == []
    {
      inode, buckets, offsets := newInode, [], [];
    }
  }
}
