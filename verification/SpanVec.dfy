/** The mutable vector of spans and its coalescing loop (common/state/src/span.rs:149-457). */
module SpanVecs {
  import opened Prelude
  import opened Spans

  /** Leftmost index of the two or three spans that an insertion looks at. */
  datatype Window = Pair(left: nat) | Triple(left: nat)

  function PartitionToWindow(len: nat, idx: nat): Option<Window>
    requires idx <= len
  {
    if len == 0 then None
    else if idx == 0 then Some(Pair(0))
    else if idx == len then Some(Pair(idx - 1))
    else Some(Triple(idx - 1))
  }

  /**
   The three situations in which the loop of `insert` looks at a window: the
   first pass, a pass just right of the span that has become `elem`, and a pass
   on the span that has become `elem`. `out` is the vector it will end with.
   */
  ghost predicate Arriving(s: seq<Span>, elem: Span, i: nat, out: seq<Span>) {
    i == Rank(s, elem.start) && out == Inserted(s, elem)
  }

  ghost predicate RightOf(s: seq<Span>, elem: Span, i: nat, out: seq<Span>) {
    0 < i <= |s| && s[i - 1] == elem && out == s[..i - 1] + Absorb(elem, s[i..])
  }

  ghost predicate On(s: seq<Span>, elem: Span, i: nat, out: seq<Span>) {
    && i < |s| && s[i] == elem
    && out == if i > 0 && Touches(s[i - 1], elem)
              then s[..i - 1] + Absorb(Hull(s[i - 1], elem), s[i + 1..]) else s
  }

  ghost predicate Looking(s: seq<Span>, elem: Span, i: nat, out: seq<Span>) {
    i <= |s| && StrictStarts(s) && (Arriving(s, elem, i, out) || Revisiting(s, elem, i, out))
  }

  ghost predicate Revisiting(s: seq<Span>, elem: Span, i: nat, out: seq<Span>) {
    RightOf(s, elem, i, out) || On(s, elem, i, out)
  }

  // ----- one lemma for each way a window of three can change the vector

  lemma OverlapStep(s: seq<Span>, elem: Span, l: nat, out: seq<Span>)
    requires l + 1 < |s| && Looking(s, elem, l + 1, out)
    requires Coalesce(elem, s[l], s[l + 1]).Overlap?
    ensures var h := Coalesce(elem, s[l], s[l + 1]).span;
            var s' := s[..l + 1] + s[l + 2..];
            Looking(s'[l := h], h, l + 1, out) && Revisiting(s'[l := h], h, l + 1, out)
  {
    var h := Coalesce(elem, s[l], s[l + 1]).span;
    var s' := (s[..l + 1] + s[l + 2..])[l := h];
    OverlapOut(s, elem, l, out);
    assert s'[..l] == s[..l] && s'[l + 1..] == s[l + 2..];
    Shortened(s, l, h);
  }

  lemma OverlapOut(s: seq<Span>, elem: Span, l: nat, out: seq<Span>)
    requires l + 1 < |s| && Looking(s, elem, l + 1, out)
    requires Coalesce(elem, s[l], s[l + 1]).Overlap?
    ensures var h := Coalesce(elem, s[l], s[l + 1]).span;
            h.start == s[l].start && out == s[..l] + Absorb(h, s[l + 2..])
  {
    var m := Hull(s[l], elem);
    assert Touches(s[l], elem) && Touches(m, s[l + 1]);
    assert s[l + 1..][0] == s[l + 1] && s[l + 1..][1..] == s[l + 2..];
    assert Absorb(m, s[l + 1..]) == Absorb(Hull(m, s[l + 1]), s[l + 2..]);
  }

  lemma LeftIdentityOverlapStep(s: seq<Span>, elem: Span, l: nat, out: seq<Span>)
    requires l + 1 < |s| && Looking(s, elem, l + 1, out)
    requires Coalesce(elem, s[l], s[l + 1]).LeftIdentityOverlap?
    ensures var h := Coalesce(elem, s[l], s[l + 1]).right;
            var s' := s[l := h];
            var s'' := s'[..l + 1] + s'[l + 2..];
            Looking(s'', h, l + 1, out) && Revisiting(s'', h, l + 1, out)
  {
    var h := Coalesce(elem, s[l], s[l + 1]).right;
    var s' := s[l := h][..l + 1] + s[l := h][l + 2..];
    assert s' == (s[..l + 1] + s[l + 2..])[l := h];
    assert s'[..l] == s[..l] && s'[l + 1..] == s[l + 2..];
    assert s[l + 1..][1..] == s[l + 2..];
    Shortened(s, l, h);
  }

  lemma Shortened(s: seq<Span>, l: nat, h: Span)
    requires StrictStarts(s) && l + 1 < |s| && h.start == s[l].start
    ensures StrictStarts((s[..l + 1] + s[l + 2..])[l := h])
  {
    var s' := (s[..l + 1] + s[l + 2..])[l := h];
    forall j, k | 0 <= j < k < |s'| ensures s'[j].start < s'[k].start {
      assert s'[j].start == (if j <= l then s[j] else s[j + 1]).start;
      assert s'[k].start == (if k <= l then s[k] else s[k + 1]).start;
    }
  }

  lemma LeftOverlapStep(s: seq<Span>, elem: Span, l: nat, out: seq<Span>)
    requires l + 1 < |s| && Looking(s, elem, l + 1, out)
    requires Coalesce(elem, s[l], s[l + 1]).LeftOverlap?
    ensures !Revisiting(s, elem, l + 1, out)
    ensures var m := Coalesce(elem, s[l], s[l + 1]).left;
            Looking(s[l := m], m, l, out) && Revisiting(s[l := m], m, l, out)
  {
    var m := Coalesce(elem, s[l], s[l + 1]).left;
    assert Touches(s[l], elem) && m == Hull(s[l], elem) && !Touches(m, s[l + 1]);
    assert !Revisiting(s, elem, l + 1, out);
    assert out == MergedLeft(s, l + 1, m);
    LeftOverlapOn(s, l, m);
  }

  lemma LeftOverlapOn(s: seq<Span>, l: nat, m: Span)
    requires StrictStarts(s) && l + 1 < |s| && m.start == s[l].start && !Touches(m, s[l + 1])
    ensures StrictStarts(s[l := m]) && On(s[l := m], m, l, MergedLeft(s, l + 1, m))
  {
    var s' := s[l := m];
    assert s'[l + 1..] == s[l + 1..];
    if l > 0 && Touches(s[l - 1], m) {
      assert s'[..l - 1] == s[..l - 1] && s'[l - 1] == s[l - 1];
    } else {
      assert s[..l] + Absorb(m, s[l + 1..]) == s';
    }
  }

  lemma RightOverlapStep(s: seq<Span>, elem: Span, l: nat, out: seq<Span>)
    requires l + 1 < |s| && Looking(s, elem, l + 1, out)
    requires Coalesce(elem, s[l], s[l + 1]).RightOverlap?
    ensures !Revisiting(s, elem, l + 1, out)
    ensures var n := Coalesce(elem, s[l], s[l + 1]).right;
            Looking(s[l + 1 := n], n, l + 1, out) && Revisiting(s[l + 1 := n], n, l + 1, out)
  {
    assert Arriving(s, elem, l + 1, out);
    assert MeetsRight(s, l + 1, elem);
  }

  lemma SettledStep(s: seq<Span>, elem: Span, l: nat, out: seq<Span>)
    requires l + 1 < |s| && Looking(s, elem, l + 1, out)
    ensures var c := Coalesce(elem, s[l], s[l + 1]);
            && !c.IdentityOverlap? && !c.RightIdentityOverlap?
            && (c.LeftIdentity? || c.RightIdentity? ==> out == s)
            && (c.Disjoint? ==> out == s[..l + 1] + [c.orig] + s[l + 1..])
  {
    assert s[l].start < s[l + 1].start;
    if RightOf(s, elem, l + 1, out) {
      SettledRightOf(s, elem, l, out);
    } else if Arriving(s, elem, l + 1, out) {
      SettledArriving(s, elem, l, out);
    } else {
      SettledOn(s, elem, l, out);
    }
  }

  lemma SettledArriving(s: seq<Span>, elem: Span, l: nat, out: seq<Span>)
    requires l + 1 < |s| && s[l].start < s[l + 1].start && Arriving(s, elem, l + 1, out)
    ensures var c := Coalesce(elem, s[l], s[l + 1]);
            && !c.IdentityOverlap? && !c.RightIdentityOverlap? && !c.LeftIdentity?
            && (c.RightIdentity? ==> out == s)
            && (c.Disjoint? ==> out == s[..l + 1] + [c.orig] + s[l + 1..])
  {
    assert s[l].start < elem.start <= s[l + 1].start;
    if Coalesce(elem, s[l], s[l + 1]).RightIdentity? {
      assert elem == s[l + 1] && MeetsRight(s, l + 1, elem) && Hull(elem, s[l + 1]) == s[l + 1];
    }
  }

  lemma SettledRightOf(s: seq<Span>, elem: Span, l: nat, out: seq<Span>)
    requires l + 1 < |s| && s[l].start < s[l + 1].start && RightOf(s, elem, l + 1, out)
    ensures var c := Coalesce(elem, s[l], s[l + 1]);
            (c.LeftIdentity? && out == s) || c.LeftIdentityOverlap?
  {
    if !Touches(elem, s[l + 1]) {
      assert Absorb(elem, s[l + 1..]) == [elem] + s[l + 1..];
      assert s == s[..l] + ([elem] + s[l + 1..]);
    }
  }

  lemma SettledOn(s: seq<Span>, elem: Span, l: nat, out: seq<Span>)
    requires l + 1 < |s| && s[l].start < s[l + 1].start && On(s, elem, l + 1, out)
    ensures var c := Coalesce(elem, s[l], s[l + 1]);
            (c.RightIdentity? && out == s) || c.Overlap?
  {
  }

  lemma PairStep(s: seq<Span>, elem: Span, i: nat, out: seq<Span>)
    requires s != [] && (i == 0 || i == |s|) && Looking(s, elem, i, out)
    ensures var l := if i == 0 then 0 else i - 1;
            match Merge(s[l], elem)
            case Identity(_) => out == s
            case Merged(h) => out == s[l := h]
            case UnMerged(_, _) => out == s[..i] + [elem] + s[i..]
  {
    assert s[..|s|] + [elem] + s[|s|..] == s + [elem];
    assert s[..0] + [elem] + s[0..] == [elem] + s;
    if i == 0 { PairAtStart(s, elem, out); } else { PairAtEnd(s, elem, out); }
  }

  lemma PairAtStart(s: seq<Span>, elem: Span, out: seq<Span>)
    requires s != [] && Looking(s, elem, 0, out)
    ensures match Merge(s[0], elem)
            case Identity(_) => out == s
            case Merged(h) => out == s[0 := h]
            case UnMerged(_, _) => out == [elem] + s
  {
    assert s[..0] + [elem] + s[0..] == [elem] + s;
    if Arriving(s, elem, 0, out) && s[0] == elem { assert s[0 := Hull(elem, s[0])] == s; }
  }

  lemma PairAtEnd(s: seq<Span>, elem: Span, out: seq<Span>)
    requires s != [] && Looking(s, elem, |s|, out)
    ensures match Merge(s[|s| - 1], elem)
            case Identity(_) => out == s
            case Merged(h) => out == s[|s| - 1 := h]
            case UnMerged(_, _) => out == s + [elem]
  {
    if RightOf(s, elem, |s|, out) {
      assert s[|s|..] == [] && s == s[..|s| - 1] + [s[|s| - 1]];
    } else {
      ArrivingAtEnd(s, elem, out);
    }
  }

  lemma ArrivingAtEnd(s: seq<Span>, elem: Span, out: seq<Span>)
    requires s != [] && Arriving(s, elem, |s|, out)
    ensures s[|s| - 1].start < elem.start
    ensures out == if Touches(s[|s| - 1], elem) then s[|s| - 1 := Hull(s[|s| - 1], elem)] else s + [elem]
  {
    assert s[|s|..] == [] && s[..|s|] == s;
    if Touches(s[|s| - 1], elem) { AppendedMerge(s, Hull(s[|s| - 1], elem)); }
  }

  lemma AppendedMerge(s: seq<Span>, m: Span)
    requires s != []
    ensures MergedLeft(s, |s|, m) == s[|s| - 1 := m]
  {
    assert s[|s|..] == [];
  }

  /** What is left of the only span `x` once `e` is removed. */
  function RemovedOne(x: Span, e: Span): seq<Span> {
    if e.start <= x.start then
      if e.end <= x.start then [x]
      else if e.end < x.end then [Interval(e.end, x.end)]
      else []
    else if e.end >= x.end then [Interval(x.start, e.start - 1)]
    else if e.end <= e.start + 1 then [x]
    else [Interval(x.start, e.start), Interval(e.end, x.end)]
  }

  /**
   Removal keeps every byte outside the removed span, and takes out every byte
   strictly inside it. It adds bytes exactly when the removed span lies beyond the
   only span, with a gap between them: then the span grows up to the removed one.
   */
  lemma RemovedOneMeans(x: Span, e: Span)
    ensures forall y :: Covers(RemovedOne(x, e), y) <==> LeftOver(x, e, y)
    ensures forall y :: In(y, x) && !In(y, e) ==> Covers(RemovedOne(x, e), y)
    ensures forall y :: e.start < y < e.end ==> !Covers(RemovedOne(x, e), y)
    ensures forall y :: Covers(RemovedOne(x, e), y) ==> In(y, x) || x.end < y < e.start
    ensures (forall y :: Covers(RemovedOne(x, e), y) ==> In(y, x)) <==> e.start <= x.end + 1
  {
    var r := RemovedOne(x, e);
    forall y ensures Covers(r, y) <==> LeftOver(x, e, y) { LeftOverExactly(x, e, y); }
    forall y | In(y, x) && !In(y, e) ensures Covers(r, y) { RemovedOneAt(x, e, y); }
    if e.start > x.end + 1 { assert In(e.start - 1, r[0]) && !In(e.start - 1, x); }
  }

  /** What is left before the removed span, up to its start where something is left behind it too, and what is left from its end on. */
  predicate LeftOver(x: Span, e: Span, y: int) {
    || (e.end <= x.start && In(y, x))
    || (x.start < e.start && x.start <= y < e.start)
    || (x.start < e.start && e.end < x.end && y == e.start)
    || (e.end < x.end && e.end <= y <= x.end && In(y, x))
    || (x.start < e.start && e.end < x.end && e.end <= e.start + 1 && In(y, x))
  }

  lemma LeftOverExactly(x: Span, e: Span, y: int)
    ensures Covers(RemovedOne(x, e), y) <==> LeftOver(x, e, y)
  {
    var r := RemovedOne(x, e);
    if LeftOver(x, e, y) { assert |r| > 0 && (In(y, r[0]) || (|r| > 1 && In(y, r[1]))); }
  }

  lemma RemovedOneAt(x: Span, e: Span, y: int)
    requires In(y, x) && !In(y, e)
    ensures Covers(RemovedOne(x, e), y)
  {
    var r := RemovedOne(x, e);
    assert |r| > 0 && (In(y, r[0]) || (|r| > 1 && In(y, r[1])));
  }

  class SpanVec {
    var spans: seq<Span>

    constructor ()
      ensures spans == []
    {
      spans := [];
    }

    constructor From(s: seq<Span>)
      ensures spans == s
    {
      spans := s;
    }

    /**
     One look at one window. The branches that the source keeps for duplicated
     spans are dead code: neither can be reached from a vector with increasing starts.
     */
    method MergeInSpan(elem: Span, insertIdx: nat, ghost out: seq<Span>) returns (r: Option<(nat, Span)>)
      requires Looking(spans, elem, insertIdx, out)
      modifies this
      ensures r.None? ==> spans == out
      ensures r.Some? ==> Looking(spans, r.value.1, r.value.0, out) && Revisiting(spans, r.value.1, r.value.0, out)
      // a first pass keeps the length or is the last; every later one stops or shortens the vector
      ensures r.Some? ==> |spans| <= old(|spans|)
      ensures r.Some? && Revisiting(old(spans), elem, insertIdx, out) ==> |spans| < old(|spans|)
    {
      var window := PartitionToWindow(|spans|, insertIdx);
      match window {
        case None =>
          spans := spans[..insertIdx] + [elem] + spans[insertIdx..];
          return None;
        case Some(Pair(left)) =>
          MergePair(elem, left, insertIdx, out);
          return None;
        case Some(Triple(l)) =>
          r := CoalesceAt(elem, l, out);
          return;
      }
    }

    /** The window at the start or at the end of the vector. */
    method MergePair(elem: Span, left: nat, insertIdx: nat, ghost out: seq<Span>)
      requires Looking(spans, elem, insertIdx, out) && left < |spans|
      requires (insertIdx == 0 && left == 0) || (insertIdx == |spans| && left == insertIdx - 1)
      modifies this
      ensures spans == out
    {
      PairStep(spans, elem, insertIdx, out);
      var merged := Merge(spans[left], elem);
      match merged {
        case Identity(_) =>
        case Merged(newSpan) => spans := spans[left := newSpan];
        case UnMerged(_, _) => spans := spans[..insertIdx] + [elem] + spans[insertIdx..];
      }
    }

    /** The window of three, whose middle is the gap where `elem` belongs. */
    method CoalesceAt(elem: Span, l: nat, ghost out: seq<Span>) returns (r: Option<(nat, Span)>)
      requires l + 1 < |spans| && Looking(spans, elem, l + 1, out)
      modifies this
      ensures r.None? ==> spans == out
      ensures r.Some? ==> Looking(spans, r.value.1, r.value.0, out) && Revisiting(spans, r.value.1, r.value.0, out)
      ensures r.Some? ==> |spans| <= old(|spans|)
      ensures r.Some? && Revisiting(old(spans), elem, l + 1, out) ==> |spans| < old(|spans|)
    {
      SettledStep(spans, elem, l, out);
      var coalesced := Coalesce(elem, spans[l], spans[l + 1]);
      match coalesced {
        case Overlap(newSpan) =>
          OverlapStep(spans, elem, l, out);
          spans := spans[..l + 1] + spans[l + 2..];
          spans := spans[l := newSpan];
          return Some((l + 1, newSpan));
        case LeftOverlap(lSpan, _) =>
          LeftOverlapStep(spans, elem, l, out);
          spans := spans[l := lSpan];
          return Some((l, lSpan));
        case RightOverlap(_, newSpan) =>
          RightOverlapStep(spans, elem, l, out);
          spans := spans[l + 1 := newSpan];
          return Some((l + 1, newSpan));
        case Disjoint(_, orig, _) =>
          spans := spans[..l + 1] + [orig] + spans[l + 1..];
          return None;
        case LeftIdentityOverlap(_, newSpan) =>
          LeftIdentityOverlapStep(spans, elem, l, out);
          spans := spans[l := newSpan];
          spans := spans[..l + 1] + spans[l + 2..];
          return Some((l + 1, newSpan));
        case LeftIdentity(_, _) =>
          return None;
        case RightIdentity(_, _) =>
          return None;
        case IdentityOverlap(_) =>
          assert false;
        case RightIdentityOverlap(_, _) =>
          assert false;
      }
    }

    method Insert(elem: Span)
      requires StrictStarts(spans)
      modifies this
      ensures spans == Inserted(old(spans), elem)
      ensures StrictStarts(spans)
    {
      ghost var out := Inserted(spans, elem);
      InsertedStarts(spans, elem);
      var insertIdx := Rank(spans, elem.start);
      var next := MergeInSpan(elem, insertIdx, out);
      while next.Some?
        invariant next.None? ==> spans == out
        invariant next.Some? ==> Looking(spans, next.value.1, next.value.0, out) && Revisiting(spans, next.value.1, next.value.0, out)
        decreases next.Some?, |spans|
      {
        next := MergeInSpan(next.value.1, next.value.0, out);
      }
    }

    /**
     `remove`, for a vector of at most one span. The three comparisons and what
     each combination does are the source's, including the right-hand case, which
     also fires when `elem` lies wholly beyond the span.
     */
    method Remove(elem: Span)
      requires |spans| <= 1
      modifies this
      ensures spans == if old(spans) == [] then [] else RemovedOne(old(spans)[0], elem)
    {
      if spans == [] {
        return;
      }
      var x := spans[0];
      match (x.start >= elem.start, elem.end > x.start, elem.end >= x.end) {
        case (false, true, false) =>
          spans := [];
          assert Inserted([], Interval(x.start, elem.start)) == [Interval(x.start, elem.start)];
          Insert(Interval(x.start, elem.start));
          assert Rank(spans, elem.end) == 1 by { assert spans[1..] == []; }
          Insert(Interval(elem.end, x.end));
        case (true, true, true) =>
          spans := [];
        case (false, true, true) =>
          spans := [Interval(x.start, elem.start - 1)];
        case (true, true, false) =>
          spans := [Interval(elem.end, x.end)];
        case _ =>
      }
    }
  }

  /** Insert one span after the other. */
  method InsertSpans(spans: seq<Span>, offsets: seq<Span>) returns (r: seq<Span>)
    requires StrictStarts(spans)
    ensures r == InsertedAll(spans, offsets)
  {
    var spanVec := new SpanVec.From(spans);
    for i := 0 to |offsets|
      invariant StrictStarts(spanVec.spans)
      invariant InsertedAll(spanVec.spans, offsets[i..]) == InsertedAll(spans, offsets)
    {
      assert offsets[i..][1..] == offsets[i + 1..];
      spanVec.Insert(offsets[i]);
    }
    r := spanVec.spans;
  }
}
