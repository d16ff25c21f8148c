/**
 Interval sets of byte offsets (common/state/src/span.rs).

 A span covers the closed range start..=end: two spans are merged as soon as
 the left one ends at, or one byte before, the start of the right one.
 */
module Spans {
  import opened Prelude

  const U64_MAX: int := 0xFFFF_FFFF_FFFF_FFFF

  datatype Interval = Interval(start: nat, end: nat)

  /** What `Span::new` lets through, short of the one end whose successor leaves u64. */
  type Span = s: Interval | s.start <= s.end < U64_MAX witness Interval(0, 0)

  datatype MergeResult =
    | Merged(span: Span)
    | Identity(span: Span)
    | UnMerged(left: Span, right: Span)

  datatype SpanCoalesced =
    | Overlap(span: Span)
    | IdentityOverlap(span: Span)
    | LeftIdentityOverlap(left: Span, right: Span)
    | RightIdentityOverlap(left: Span, right: Span)
    | LeftIdentity(left: Span, right: Span)
    | RightIdentity(left: Span, right: Span)
    | LeftOverlap(left: Span, right: Span)
    | RightOverlap(left: Span, right: Span)
    | Disjoint(left: Span, orig: Span, right: Span)

  function MergeRight(left: Span, right: Span): MergeResult {
    if left == right then
      Identity(left)
    else if left.start <= right.start && left.end + 1 >= right.start then
      Merged(Interval(Min(left.start, right.start), Max(left.end, right.end)))
    else
      UnMerged(left, right)
  }

  function Merge(left: Span, right: Span): MergeResult {
    var res := MergeRight(left, right);
    if !res.UnMerged? then
      res
    else
      var flipped := MergeRight(right, left);
      if flipped.Merged? then flipped else res
  }

  function Classify(leftRes: MergeResult, rightRes: MergeResult): SpanCoalesced {
    match (leftRes, rightRes)
    case (Merged(_), Merged(span)) => Overlap(span)
    case (Identity(span), Identity(_)) => IdentityOverlap(span)
    case (Identity(l), Merged(r)) => LeftIdentityOverlap(l, r)
    case (Merged(l), Identity(r)) => RightIdentityOverlap(l, r)
    case (Identity(l), UnMerged(_, r)) => LeftIdentity(l, r)
    case (UnMerged(l, _), Identity(r)) => RightIdentity(l, r)
    case (Merged(l), UnMerged(_, r)) => LeftOverlap(l, r)
    case (UnMerged(l, _), Merged(r)) => RightOverlap(l, r)
    case (UnMerged(l, orig), UnMerged(_, r)) => Disjoint(l, orig, r)
  }

  function Coalesce(elem: Span, left: Span, right: Span): SpanCoalesced {
    var leftRes := MergeRight(left, elem);
    var grown := if leftRes.UnMerged? then elem else leftRes.span;
    Classify(leftRes, MergeRight(grown, right))
  }

  // ----- what a vector of spans means

  predicate In(x: int, s: Span) { s.start <= x <= s.end }

  /** The offset `x` lies in some span of the vector. */
  ghost predicate Covers(s: seq<Span>, x: int) {
    exists k :: 0 <= k < |s| && In(x, s[k])
  }

  ghost predicate StrictStarts(s: seq<Span>) {
    forall j, k :: 0 <= j < k < |s| ==> s[j].start < s[k].start
  }

  /** Gap-separated: no two spans overlap or touch. */
  ghost predicate Canonical(s: seq<Span>) {
    forall j, k :: 0 <= j < k < |s| ==> s[j].end + 1 < s[k].start
  }

  predicate Touches(left: Span, right: Span) {
    left.start <= right.start <= left.end + 1
  }

  function Hull(a: Span, b: Span): (h: Span)
    ensures Touches(a, b) ==> forall x :: In(x, h) <==> In(x, a) || In(x, b)
  {
    Interval(Min(a.start, b.start), Max(a.end, b.end))
  }

  predicate Between(x: int, a: Span, b: Span) { a.end < x < b.start || b.end < x < a.start }

  /** Two spans merge exactly when no offset lies between them, and then into their union. */
  lemma MergeMeans(left: Span, right: Span)
    ensures Merge(left, right).UnMerged? <==> exists x :: Between(x, left, right)
    ensures !Merge(left, right).UnMerged? ==>
              forall x :: In(x, Merge(left, right).span) <==> In(x, left) || In(x, right)
  {
    assert left.end + 1 < right.start ==> Between(left.end + 1, left, right);
    assert right.end + 1 < left.start ==> Between(right.end + 1, left, right);
  }

  // ----- insertion, in closed form

  /** `partition_point`: how many leading spans start before `x`. */
  function Rank(s: seq<Span>, x: nat): (r: nat)
    ensures r <= |s|
    ensures forall k :: 0 <= k < r ==> s[k].start < x
    ensures r < |s| ==> x <= s[r].start
  {
    if s == [] || x <= s[0].start then 0 else 1 + Rank(s[1..], x)
  }

  /** Swallow every span of `rest` that the growing span `m` reaches. */
  function Absorb(m: Span, rest: seq<Span>): seq<Span>
    decreases rest
  {
    if rest != [] && Touches(m, rest[0]) then Absorb(Hull(m, rest[0]), rest[1..]) else [m] + rest
  }

  /** The span before position `i` has grown into `m`, which may reach its neighbours. */
  function MergedLeft(s: seq<Span>, i: nat, m: Span): seq<Span>
    requires 0 < i <= |s|
  {
    if i < |s| && !Touches(m, s[i]) && i > 1 && Touches(s[i - 2], m) then
      s[..i - 2] + Absorb(Hull(s[i - 2], m), s[i..])
    else
      s[..i - 1] + Absorb(m, s[i..])
  }

  /** The new span `e` reaches the span at the position where it would go, and only that one is looked at. */
  predicate MeetsRight(s: seq<Span>, i: nat, e: Span) {
    i < |s| && (Touches(e, s[i]) || (i == 0 && Touches(s[i], e)))
  }

  /** The vector that inserting `e` produces, case by case and without a loop over windows. */
  function Inserted(s: seq<Span>, e: Span): seq<Span> {
    var i := Rank(s, e.start);
    if i > 0 && Touches(s[i - 1], e) then MergedLeft(s, i, Hull(s[i - 1], e))
    else if MeetsRight(s, i, e) then s[i := Hull(e, s[i])]
    else s[..i] + [e] + s[i..]
  }

  function InsertedAll(s: seq<Span>, es: seq<Span>): seq<Span>
    decreases es
  {
    if es == [] then s else InsertedAll(Inserted(s, es[0]), es[1..])
  }

  // ----- coverage

  lemma CoversConcat(a: seq<Span>, b: seq<Span>, x: int)
    ensures Covers(a + b, x) <==> Covers(a, x) || Covers(b, x)
  {
    if k :| 0 <= k < |a| && In(x, a[k]) { assert In(x, (a + b)[k]); }
    if k :| 0 <= k < |b| && In(x, b[k]) { assert In(x, (a + b)[|a| + k]); }
  }

  lemma CoversSplit(s: seq<Span>, i: nat, x: int)
    requires i < |s|
    ensures Covers(s, x) <==> Covers(s[..i], x) || In(x, s[i]) || Covers(s[i + 1..], x)
  {
    assert s == s[..i] + ([s[i]] + s[i + 1..]);
    CoversConcat(s[..i], [s[i]] + s[i + 1..], x);
    CoversConcat([s[i]], s[i + 1..], x);
    assert In(x, s[i]) ==> In(x, [s[i]][0]);
  }

  lemma {:induction false} AbsorbCovers(m: Span, rest: seq<Span>, x: int)
    ensures Covers(Absorb(m, rest), x) <==> In(x, m) || Covers(rest, x)
    decreases rest
  {
    if rest != [] && Touches(m, rest[0]) {
      AbsorbCovers(Hull(m, rest[0]), rest[1..], x);
      CoversSplit(rest, 0, x);
    } else {
      CoversConcat([m], rest, x);
      assert In(x, m) ==> In(x, [m][0]);
    }
  }

  lemma MergedLeftCovers(s: seq<Span>, i: nat, m: Span, x: int)
    requires 0 < i <= |s|
    ensures Covers(MergedLeft(s, i, m), x) <==> Covers(s[..i - 1], x) || In(x, m) || Covers(s[i..], x)
  {
    if i < |s| && !Touches(m, s[i]) && i > 1 && Touches(s[i - 2], m) {
      var h := Hull(s[i - 2], m);
      CoversSplit(s[..i - 1], i - 2, x);
      assert s[..i - 1][..i - 2] == s[..i - 2];
      CoversConcat(s[..i - 2], Absorb(h, s[i..]), x);
      AbsorbCovers(h, s[i..], x);
    } else {
      CoversConcat(s[..i - 1], Absorb(m, s[i..]), x);
      AbsorbCovers(m, s[i..], x);
    }
  }

  /** Insertion is set union, whatever the vector looked like. */
  lemma InsertedCovers(s: seq<Span>, e: Span, x: int)
    ensures Covers(Inserted(s, e), x) <==> Covers(s, x) || In(x, e)
  {
    var i := Rank(s, e.start);
    var r := Inserted(s, e);
    if i > 0 && Touches(s[i - 1], e) {
      CoversSplit(s, i - 1, x);
      MergedLeftCovers(s, i, Hull(s[i - 1], e), x);
    } else if MeetsRight(s, i, e) {
      CoversSplit(s, i, x);
      CoversSplit(r, i, x);
      assert r[..i] == s[..i] && r[i + 1..] == s[i + 1..];
    } else {
      assert s == s[..i] + s[i..];
      CoversConcat(s[..i], s[i..], x);
      CoversSplit(r, i, x);
      assert r[..i] == s[..i] && r[i + 1..] == s[i..];
    }
  }

  lemma {:induction false} InsertedAllCovers(s: seq<Span>, es: seq<Span>, x: int)
    ensures Covers(InsertedAll(s, es), x) <==> Covers(s, x) || Covers(es, x)
    decreases es
  {
    if es != [] {
      InsertedAllCovers(Inserted(s, es[0]), es[1..], x);
      InsertedCovers(s, es[0], x);
      CoversSplit(es, 0, x);
    }
  }

  // ----- order

  lemma StartsConcat(a: seq<Span>, b: seq<Span>)
    requires StrictStarts(a) && StrictStarts(b)
    requires a != [] && b != [] ==> a[|a| - 1].start < b[0].start
    ensures StrictStarts(a + b)
  {
    forall j, k | 0 <= j < k < |a + b| ensures (a + b)[j].start < (a + b)[k].start {
      if j < |a| <= k {
        assert a[j].start <= a[|a| - 1].start && b[0].start <= b[k - |a|].start;
      }
    }
  }

  lemma {:induction false} AbsorbStarts(m: Span, rest: seq<Span>)
    requires StrictStarts(rest) && (rest != [] ==> m.start < rest[0].start)
    ensures StrictStarts(Absorb(m, rest))
    ensures Absorb(m, rest) != [] && Absorb(m, rest)[0].start == m.start
    decreases rest
  {
    if rest != [] && Touches(m, rest[0]) {
      AbsorbStarts(Hull(m, rest[0]), rest[1..]);
    } else {
      StartsConcat([m], rest);
    }
  }

  lemma MergedLeftStarts(s: seq<Span>, i: nat, m: Span)
    requires StrictStarts(s) && 0 < i <= |s| && m.start == s[i - 1].start
    ensures StrictStarts(MergedLeft(s, i, m))
  {
    if i < |s| && !Touches(m, s[i]) && i > 1 && Touches(s[i - 2], m) {
      AbsorbStarts(Hull(s[i - 2], m), s[i..]);
      StartsConcat(s[..i - 2], Absorb(Hull(s[i - 2], m), s[i..]));
    } else {
      AbsorbStarts(m, s[i..]);
      StartsConcat(s[..i - 1], Absorb(m, s[i..]));
    }
  }

  lemma InsertedStarts(s: seq<Span>, e: Span)
    requires StrictStarts(s)
    ensures StrictStarts(Inserted(s, e))
  {
    var i := Rank(s, e.start);
    if i > 0 && Touches(s[i - 1], e) {
      MergedLeftStarts(s, i, Hull(s[i - 1], e));
    } else if !MeetsRight(s, i, e) {
      InsertBetween(s, e, i);
    }
  }

  lemma InsertBetween(s: seq<Span>, e: Span, i: nat)
    requires StrictStarts(s) && i <= |s|
    requires i > 0 ==> s[i - 1].start < e.start
    requires i < |s| ==> e.start < s[i].start
    ensures StrictStarts(s[..i] + [e] + s[i..])
  {
    StartsConcat(s[..i], [e]);
    StartsConcat(s[..i] + [e], s[i..]);
  }

  lemma {:induction false} InsertedAllStarts(s: seq<Span>, es: seq<Span>)
    requires StrictStarts(s)
    ensures StrictStarts(InsertedAll(s, es))
    decreases es
  {
    if es != [] {
      InsertedStarts(s, es[0]);
      InsertedAllStarts(Inserted(s, es[0]), es[1..]);
    }
  }

  // ----- canonical form

  lemma GapsConcat(a: seq<Span>, b: seq<Span>)
    requires Canonical(a) && Canonical(b)
    requires a != [] && b != [] ==> a[|a| - 1].end + 1 < b[0].start
    ensures Canonical(a + b)
  {
    forall j, k | 0 <= j < k < |a + b| ensures (a + b)[j].end + 1 < (a + b)[k].start {
      if j < |a| <= k {
        assert a[j].end <= a[|a| - 1].end && b[0].start <= b[k - |a|].start;
      }
    }
  }

  lemma {:induction false} AbsorbCanonical(m: Span, rest: seq<Span>)
    requires Canonical(rest)
    requires rest != [] ==> m.start <= rest[0].start
    ensures Canonical(Absorb(m, rest))
    ensures Absorb(m, rest) != [] && Absorb(m, rest)[0].start == m.start
    decreases rest
  {
    if rest != [] && Touches(m, rest[0]) {
      AbsorbCanonical(Hull(m, rest[0]), rest[1..]);
    } else {
      GapsConcat([m], rest);
    }
  }

  /** When the insertion of `e` looks far enough to the right. */
  predicate KeepsGaps(s: seq<Span>, e: Span) {
    var i := Rank(s, e.start);
    (i > 0 && Touches(s[i - 1], e)) || i + 1 >= |s| || e.end + 1 < s[i + 1].start
  }

  lemma MergedLeftCanonical(s: seq<Span>, i: nat, m: Span)
    requires Canonical(s) && 0 < i <= |s| && m.start == s[i - 1].start
    ensures Canonical(MergedLeft(s, i, m))
  {
    AbsorbCanonical(m, s[i..]);
    GapsConcat(s[..i - 1], Absorb(m, s[i..]));
  }

  /** The exact condition under which inserting into a gap-separated vector leaves one. */
  lemma InsertedCanonical(s: seq<Span>, e: Span)
    requires Canonical(s)
    ensures Canonical(Inserted(s, e)) <==> KeepsGaps(s, e)
  {
    var i := Rank(s, e.start);
    if i > 0 && Touches(s[i - 1], e) {
      MergedLeftCanonical(s, i, Hull(s[i - 1], e));
    } else if MeetsRight(s, i, e) {
      ReplacedCanonical(s, i, e);
    } else {
      GapsConcat(s[..i], [e]);
      GapsConcat(s[..i] + [e], s[i..]);
      assert i + 1 < |s| ==> e.end + 1 < s[i].start <= s[i + 1].start;
    }
  }

  lemma ReplacedCanonical(s: seq<Span>, i: nat, e: Span)
    requires Canonical(s) && i < |s| && e.start <= s[i].start
    requires i > 0 ==> s[i - 1].end + 1 < e.start
    ensures Canonical(s[i := Hull(e, s[i])]) <==> i + 1 >= |s| || e.end + 1 < s[i + 1].start
  {
    var h := Hull(e, s[i]);
    var r := s[i := h];
    if i + 1 >= |s| || e.end + 1 < s[i + 1].start {
      GapsConcat([h], s[i + 1..]);
      GapsConcat(s[..i], [h] + s[i + 1..]);
      assert r == s[..i] + ([h] + s[i + 1..]);
    } else {
      assert r[i] == h && r[i + 1] == s[i + 1];
    }
  }

  lemma FirstStartCovered(v: seq<Span>)
    requires v != []
    ensures Covers(v, v[0].start)
  {
    assert In(v[0].start, v[0]);
  }

  /** A gap-separated vector is determined by what it covers. */
  lemma {:induction false} CanonicalUnique(a: seq<Span>, b: seq<Span>)
    requires Canonical(a) && Canonical(b)
    requires forall x :: Covers(a, x) <==> Covers(b, x)
    ensures a == b
  {
    if a == [] {
      if b != [] { FirstStartCovered(b); }
    } else if b == [] {
      FirstStartCovered(a);
    } else {
      FirstSpanAgrees(a, b);
      FirstSpanAgrees(b, a);
      forall x ensures Covers(a[1..], x) <==> Covers(b[1..], x) {
        CoversSplit(a, 0, x);
        CoversSplit(b, 0, x);
        assert In(x, a[0]) ==> !Covers(a[1..], x) && !Covers(b[1..], x);
      }
      CanonicalUnique(a[1..], b[1..]);
    }
  }

  lemma FirstSpanAgrees(a: seq<Span>, b: seq<Span>)
    requires Canonical(a) && Canonical(b) && a != [] && b != []
    requires forall x :: Covers(a, x) <==> Covers(b, x)
    ensures b[0].start <= a[0].start && a[0].end <= b[0].end
  {
    assert In(a[0].start, a[0]) && In(a[0].end, a[0]);
    assert Covers(b, a[0].start) && Covers(b, a[0].end);
    assert In(b[0].start, b[0]);
    assert Covers(a, b[0].start);
    assert a[0].start <= b[0].start;
    assert !Covers(b, b[0].end + 1);
    assert !Covers(a, b[0].end + 1);
    assert !In(b[0].end + 1, a[0]);
  }

  /** Every single insertion of the list keeps the gaps. */
  predicate AllKeepGaps(s: seq<Span>, es: seq<Span>)
    decreases es
  {
    es == [] || (KeepsGaps(s, es[0]) && AllKeepGaps(Inserted(s, es[0]), es[1..]))
  }

  lemma {:induction false} InsertedAllCanonical(s: seq<Span>, es: seq<Span>)
    requires Canonical(s) && AllKeepGaps(s, es)
    ensures Canonical(InsertedAll(s, es))
    decreases es
  {
    if es != [] {
      InsertedCanonical(s, es[0]);
      InsertedAllCanonical(Inserted(s, es[0]), es[1..]);
    }
  }

  /** Any two orders that keep the gaps, of lists that cover the same offsets, end in the same vector. */
  lemma OrderIrrelevant(s: seq<Span>, es: seq<Span>, fs: seq<Span>)
    requires Canonical(s) && AllKeepGaps(s, es) && AllKeepGaps(s, fs)
    requires forall x :: Covers(es, x) <==> Covers(fs, x)
    ensures InsertedAll(s, es) == InsertedAll(s, fs)
  {
    InsertedAllCanonical(s, es);
    InsertedAllCanonical(s, fs);
    forall x ensures Covers(InsertedAll(s, es), x) <==> Covers(InsertedAll(s, fs), x) {
      InsertedAllCovers(s, es, x);
      InsertedAllCovers(s, fs, x);
    }
    CanonicalUnique(InsertedAll(s, es), InsertedAll(s, fs));
  }

  /** The code can build vectors whose second span touches its first one, or lies inside it. */
  lemma InsertCanLoseGaps(end: nat)
    requires 9 <= end < U64_MAX
    ensures var s := InsertedAll([], [Interval(10, 11), Interval(5, 6)]);
            && Canonical(s)
            && Inserted(s, Interval(0, end)) == [Interval(0, end), Interval(10, 11)]
            && !Canonical(Inserted(s, Interval(0, end)))
  {
    var far, near, wide := Interval(10, 11), Interval(5, 6), Interval(0, end);
    assert Inserted([], far) == [far];
    assert Inserted([far], near) == [near, far];
    assert [far, near][1..] == [near] && [near][1..] == [];
    assert InsertedAll([near, far], []) == [near, far];
    assert InsertedAll([far], [near]) == [near, far];
    assert Rank([near, far], 0) == 0;
    assert Inserted([near, far], wide) == [near, far][0 := wide];
    assert [wide, far][0].end + 1 >= [wide, far][1].start;
  }
}
