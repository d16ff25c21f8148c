/** Redaction of the matches of several patterns (common/middleware/src/line_rules.rs:64-134). */
module LineRules {
  import opened Prelude

  type Byte = x: int | 0 <= x < 256

  /** A match, or a group of overlapping ones: the bytes from `from` up to, not including, `to`. */
  datatype RawGroup = RawGroup(from: nat, to: nat)
  type Group = g: RawGroup | g.from <= g.to witness RawGroup(0, 0)

  predicate Holds(g: Group, x: int) { g.from <= x < g.to }

  ghost predicate Covered(gs: seq<Group>, x: int) {
    exists k :: 0 <= k < |gs| && Holds(gs[k], x)
  }

  predicate Overlaps(existing: Group, m: Group) {
    (existing.from <= m.from <= existing.to) || (m.from <= existing.from <= m.to)
  }

  function Joined(g: Group, m: Group): Group {
    RawGroup(Min(g.from, m.from), Max(g.to, m.to))
  }

  /** Where the scan for `m` stops: at the first group that it overlaps or precedes. */
  function StopAt(gs: seq<Group>, m: Group): (i: nat)
    ensures i <= |gs|
    ensures forall k :: 0 <= k < i ==> !Overlaps(gs[k], m) && gs[k].from <= m.from
    ensures i < |gs| ==> Overlaps(gs[i], m) || m.from < gs[i].from
  {
    if gs == [] || Overlaps(gs[0], m) || m.from < gs[0].from then 0 else 1 + StopAt(gs[1..], m)
  }

  /** The groups after one more match. Only one group is ever joined. */
  function Added(gs: seq<Group>, m: Group): seq<Group> {
    var i := StopAt(gs, m);
    if i < |gs| && Overlaps(gs[i], m) then gs[i := Joined(gs[i], m)]
    else gs[..i] + [m] + gs[i..]
  }

  /** The groups after all matches, in the order in which they are found. */
  function Groups(ms: seq<Group>): seq<Group> {
    if ms == [] then [] else Added(Groups(ms[..|ms| - 1]), ms[|ms| - 1])
  }

  ghost predicate StrictStarts(gs: seq<Group>) {
    forall i, j :: 0 <= i < j < |gs| ==> gs[i].from < gs[j].from
  }

  /** No group ends after the next one starts. */
  predicate Apart(gs: seq<Group>) {
    forall i :: 0 <= i < |gs| - 1 ==> gs[i].to <= gs[i + 1].from
  }

  /** The match reaches past the group that it is joined to, into the next one. */
  predicate Bridges(gs: seq<Group>, m: Group) {
    var i := StopAt(gs, m);
    i + 1 < |gs| && Overlaps(gs[i], m) && m.to > gs[i + 1].from
  }

  // ----- the groups

  lemma AddedCovers(gs: seq<Group>, m: Group, x: int)
    ensures Covered(Added(gs, m), x) <==> Covered(gs, x) || Holds(m, x)
  {
    var i := StopAt(gs, m);
    if i < |gs| && Overlaps(gs[i], m) {
      var r := gs[i := Joined(gs[i], m)];
      assert Holds(r[i], x) <==> Holds(gs[i], x) || Holds(m, x);
      if k :| 0 <= k < |gs| && Holds(gs[k], x) { assert Holds(r[k], x); }
      if k :| 0 <= k < |r| && Holds(r[k], x) && k != i { assert Holds(gs[k], x); }
    } else {
      InsertedCovers(gs, m, i, x);
    }
  }

  lemma InsertedCovers(gs: seq<Group>, m: Group, i: nat, x: int)
    requires i <= |gs|
    ensures Covered(gs[..i] + [m] + gs[i..], x) <==> Covered(gs, x) || Holds(m, x)
  {
    var r := gs[..i] + [m] + gs[i..];
    assert r[i] == m;
    if k :| 0 <= k < |gs| && Holds(gs[k], x) { assert Holds(r[if k < i then k else k + 1], x); }
    if k :| 0 <= k < |r| && Holds(r[k], x) && k != i { assert Holds(gs[if k < i then k else k - 1], x); }
  }

  lemma AddedStarts(gs: seq<Group>, m: Group)
    requires StrictStarts(gs)
    ensures StrictStarts(Added(gs, m))
  {
    var i := StopAt(gs, m);
    assert forall k :: 0 <= k < i ==> gs[k].from < m.from;
    if !(i < |gs| && Overlaps(gs[i], m)) { InsertedStarts(gs, m, i); }
  }

  lemma InsertedStarts(gs: seq<Group>, m: Group, i: nat)
    requires StrictStarts(gs) && i <= |gs|
    requires (forall k :: 0 <= k < i ==> gs[k].from < m.from) && (i < |gs| ==> m.from < gs[i].from)
    ensures StrictStarts(gs[..i] + [m] + gs[i..])
  {
  }

  /** The groups cover exactly the bytes that some match covers, and start one after the other. */
  lemma {:induction false} GroupsCover(ms: seq<Group>, x: int)
    ensures Covered(Groups(ms), x) <==> Covered(ms, x)
    ensures StrictStarts(Groups(ms))
  {
    if ms != [] {
      var init, last := ms[..|ms| - 1], ms[|ms| - 1];
      GroupsCover(init, x);
      AddedCovers(Groups(init), last, x);
      AddedStarts(Groups(init), last);
      if k :| 0 <= k < |ms| && Holds(ms[k], x) && k < |init| { assert Holds(init[k], x); }
      if k :| 0 <= k < |init| && Holds(init[k], x) { assert Holds(ms[k], x); }
    }
  }

  /** The exact condition under which one more match leaves the groups apart. */
  lemma AddedApart(gs: seq<Group>, m: Group)
    requires Apart(gs) && StrictStarts(gs)
    ensures Apart(Added(gs, m)) <==> !Bridges(gs, m)
  {
    var i := StopAt(gs, m);
    assert forall k :: 0 <= k < i ==> gs[k].to < m.from;
    if i < |gs| && Overlaps(gs[i], m) { JoinedApart(gs, m, i); } else { InsertedApart(gs, m, i); }
  }

  lemma JoinedApart(gs: seq<Group>, m: Group, i: nat)
    requires Apart(gs) && StrictStarts(gs) && i < |gs| && (i > 0 ==> gs[i - 1].to < m.from)
    ensures Apart(gs[i := Joined(gs[i], m)]) <==> !(i + 1 < |gs| && m.to > gs[i + 1].from)
  {
    var r := gs[i := Joined(gs[i], m)];
    assert i > 0 ==> gs[i - 1].to <= gs[i - 1 + 1].from;
    assert i + 1 < |gs| ==> gs[i].to <= gs[i + 1].from;
    assert i + 1 < |gs| ==> r[i].to == Max(gs[i].to, m.to) && r[i + 1] == gs[i + 1];
    forall k | 0 <= k < |r| - 1 && k != i ensures r[k].to <= r[k + 1].from {
      assert gs[k].to <= gs[k + 1].from;
    }
  }

  lemma InsertedApart(gs: seq<Group>, m: Group, i: nat)
    requires Apart(gs) && i <= |gs| && (i > 0 ==> gs[i - 1].to < m.from) && (i < |gs| ==> m.to <= gs[i].from)
    ensures Apart(gs[..i] + [m] + gs[i..])
  {
    var r := gs[..i] + [m] + gs[i..];
    forall k | 0 <= k < |r| - 1 ensures r[k].to <= r[k + 1].from {
      if k + 1 < i { assert gs[k].to <= gs[k + 1].from; }
      if k > i { assert gs[k - 1].to <= gs[k - 1 + 1].from; }
    }
  }

  /** Two groups that have run into each other are never told apart again. */
  lemma StaysJoinedUp(gs: seq<Group>, m: Group)
    requires StrictStarts(gs) && !Apart(gs)
    ensures !Apart(Added(gs, m))
  {
    var j :| 0 <= j < |gs| - 1 && gs[j].to > gs[j + 1].from;
    var i := StopAt(gs, m);
    var r := Added(gs, m);
    if i < |gs| && Overlaps(gs[i], m) {
      assert r[j].to >= gs[j].to && r[j + 1].from <= gs[j + 1].from;
      assert r[j].to > r[j + 1].from;
    } else if i <= j {
      assert r[j + 1] == gs[j] && r[j + 1 + 1] == gs[j + 1];
    } else {
      assert gs[j].to < m.from;
      assert i != j + 1;
      assert r[j] == gs[j] && r[j + 1] == gs[j + 1];
    }
  }

  /** No match, when its turn comes, reaches past the group it is joined to. */
  predicate NeverBridges(ms: seq<Group>) {
    ms == [] || (NeverBridges(ms[..|ms| - 1]) && !Bridges(Groups(ms[..|ms| - 1]), ms[|ms| - 1]))
  }

  lemma {:induction false} GroupsApart(ms: seq<Group>)
    ensures Apart(Groups(ms)) <==> NeverBridges(ms)
  {
    if ms != [] {
      var init, last := ms[..|ms| - 1], ms[|ms| - 1];
      GroupsApart(init);
      GroupsCover(init, 0);
      if Apart(Groups(init)) { AddedApart(Groups(init), last); } else { StaysJoinedUp(Groups(init), last); }
    }
  }

  // ----- groups with a gap between them

  /** Every group ends before the next one starts, with at least one byte between them. */
  predicate Separated(gs: seq<Group>) {
    forall i :: 0 <= i < |gs| - 1 ==> gs[i].to < gs[i + 1].from
  }

  /** The match reaches two neighbouring groups, if only at their ends. */
  ghost predicate ReachesTwo(gs: seq<Group>, m: Group) {
    exists j :: 0 <= j < |gs| - 1 && m.from <= gs[j].to && gs[j + 1].from <= m.to
  }

  lemma {:induction false} SeparatedOrder(gs: seq<Group>, j: nat, k: nat)
    requires Separated(gs) && j < k < |gs|
    ensures gs[j].to < gs[k].from
    decreases k
  {
    assert gs[k - 1].to < gs[k - 1 + 1].from;
    if j < k - 1 { SeparatedOrder(gs, j, k - 1); }
  }

  lemma SeparatedStarts(gs: seq<Group>)
    requires Separated(gs)
    ensures StrictStarts(gs)
  {
    forall j, k | 0 <= j < k < |gs| ensures gs[j].from < gs[k].from { SeparatedOrder(gs, j, k); }
  }

  /** One more match keeps the groups separated exactly when it reaches at most one of two neighbours. */
  lemma AddedSeparated(gs: seq<Group>, m: Group)
    requires Separated(gs)
    ensures Separated(Added(gs, m)) <==> !ReachesTwo(gs, m)
  {
    var i := StopAt(gs, m);
    SeparatedStarts(gs);
    if i < |gs| && Overlaps(gs[i], m) { JoinedSeparated(gs, m, i); } else { InsertedSeparated(gs, m, i); }
  }

  lemma JoinedSeparated(gs: seq<Group>, m: Group, i: nat)
    requires Separated(gs) && i == StopAt(gs, m) < |gs| && Overlaps(gs[i], m)
    ensures Separated(gs[i := Joined(gs[i], m)]) <==> !ReachesTwo(gs, m)
  {
    assert i > 0 ==> gs[i - 1].to < m.from;
    ReachesNext(gs, m, i);
    GrownSeparated(gs, Joined(gs[i], m), i);
  }

  lemma ReachesNext(gs: seq<Group>, m: Group, i: nat)
    requires Separated(gs) && i < |gs| && m.from <= gs[i].to && (i > 0 ==> gs[i - 1].to < m.from)
    ensures ReachesTwo(gs, m) <==> i + 1 < |gs| && gs[i + 1].from <= m.to
  {
    if j :| 0 <= j < |gs| - 1 && m.from <= gs[j].to && gs[j + 1].from <= m.to {
      if j > i { SeparatedOrder(gs, i + 1, j + 1); }
      if j < i - 1 { SeparatedOrder(gs, j, i - 1); }
    }
    if i + 1 < |gs| && gs[i + 1].from <= m.to { assert m.from <= gs[i].to && gs[i + 1].from <= m.to; }
  }

  lemma GrownSeparated(gs: seq<Group>, g: Group, i: nat)
    requires Separated(gs) && i < |gs| && g.to >= gs[i].to && (i > 0 ==> gs[i - 1].to < g.from)
    ensures Separated(gs[i := g]) <==> !(i + 1 < |gs| && gs[i + 1].from <= g.to)
  {
    var r := gs[i := g];
    if i + 1 < |gs| && gs[i + 1].from <= g.to {
      assert r[i].to >= r[i + 1].from;
    } else {
      forall k | 0 <= k < |r| - 1 ensures r[k].to < r[k + 1].from { assert gs[k].to < gs[k + 1].from; }
    }
  }

  lemma InsertedSeparated(gs: seq<Group>, m: Group, i: nat)
    requires Separated(gs) && i == StopAt(gs, m) && (i < |gs| ==> !Overlaps(gs[i], m))
    ensures Separated(gs[..i] + [m] + gs[i..]) && !ReachesTwo(gs, m)
  {
    var r := gs[..i] + [m] + gs[i..];
    assert i > 0 ==> gs[i - 1].to < m.from;
    assert i < |gs| ==> m.to < gs[i].from;
    forall k | 0 <= k < |r| - 1 ensures r[k].to < r[k + 1].from {
      if k + 1 < i { assert gs[k].to < gs[k + 1].from; }
      if k > i { assert gs[k - 1].to < gs[k - 1 + 1].from; }
    }
    if j :| 0 <= j < |gs| - 1 && m.from <= gs[j].to && gs[j + 1].from <= m.to {
      if j + 1 > i { if i < j + 1 { SeparatedOrder(gs, i, j + 1); } }
    }
  }

  /** Two neighbours without a gap are never told apart again. */
  lemma StaysTouching(gs: seq<Group>, m: Group)
    requires StrictStarts(gs) && !Separated(gs)
    ensures !Separated(Added(gs, m))
  {
    var j :| 0 <= j < |gs| - 1 && gs[j].to >= gs[j + 1].from;
    var i := StopAt(gs, m);
    var r := Added(gs, m);
    if i < |gs| && Overlaps(gs[i], m) {
      assert r[j].to >= r[j + 1].from;
    } else if i <= j {
      assert r[j + 1] == gs[j] && r[j + 1 + 1] == gs[j + 1];
    } else {
      assert gs[j].to < m.from;
      assert i != j + 1;
      assert r[j] == gs[j] && r[j + 1] == gs[j + 1];
    }
  }

  /** No match, when its turn comes, reaches two groups. */
  ghost predicate NeverReachesTwo(ms: seq<Group>) {
    ms == [] || (NeverReachesTwo(ms[..|ms| - 1]) && !ReachesTwo(Groups(ms[..|ms| - 1]), ms[|ms| - 1]))
  }

  /** So touching matches come out as one group, unless some match reaches two. */
  lemma {:induction false} GroupsSeparated(ms: seq<Group>)
    ensures Separated(Groups(ms)) <==> NeverReachesTwo(ms)
  {
    if ms != [] {
      var init, last := ms[..|ms| - 1], ms[|ms| - 1];
      GroupsSeparated(init);
      GroupsCover(init, 0);
      if Separated(Groups(init)) { AddedSeparated(Groups(init), last); } else { StaysTouching(Groups(init), last); }
    }
  }

  // ----- the output

  const REDACTED: seq<Byte> := [91, 82, 69, 68, 65, 67, 84, 69, 68, 93]

  lemma MarkReads()
    ensures |REDACTED| == |"[REDACTED]"| == 10 && forall i :: 0 <= i < 10 ==> REDACTED[i] == "[REDACTED]"[i] as int
  {
  }

  /** The output from byte `index` on; `None` where the slice between two groups runs backwards and panics. */
  function Render(value: seq<Byte>, gs: seq<Group>, index: nat): Option<seq<Byte>> {
    if gs == [] then Some(if index < |value| then value[index..] else [])
    else if !(index <= gs[0].from <= |value|) then None
    else match Render(value, gs[1..], gs[0].to)
      case None => None
      case Some(rest) => Some(value[index..gs[0].from] + REDACTED + rest)
  }

  function Flat(patterns: seq<seq<Group>>): seq<Group> {
    if patterns == [] then [] else Flat(patterns[..|patterns| - 1]) + patterns[|patterns| - 1]
  }

  predicate Within(gs: seq<Group>, n: nat) {
    forall i :: 0 <= i < |gs| ==> gs[i].to <= n
  }

  /** Rendering succeeds exactly when every group starts where the previous one has ended. */
  lemma {:induction false} RenderSucceeds(value: seq<Byte>, gs: seq<Group>, index: nat)
    requires Within(gs, |value|)
    ensures Render(value, gs, index).Some? <==> Apart(gs) && (gs != [] ==> index <= gs[0].from)
  {
    if gs != [] {
      var rest := gs[1..];
      RenderSucceeds(value, rest, gs[0].to);
      assert forall i :: 0 <= i < |rest| ==> rest[i] == gs[i + 1];
      if Apart(gs) {
        assert |gs| > 1 ==> gs[0].to <= gs[0 + 1].from;
        forall i | 0 <= i < |rest| - 1 ensures rest[i].to <= rest[i + 1].from { assert gs[i + 1].to <= gs[i + 1 + 1].from; }
      } else if Apart(rest) && (|gs| > 1 ==> gs[0].to <= gs[1].from) {
        forall i | 0 <= i < |gs| - 1 ensures gs[i].to <= gs[i + 1].from {
          if i > 0 { assert rest[i - 1].to <= rest[i - 1 + 1].from; }
        }
      }
    }
  }

  /** How far the first `k` groups move what follows them. */
  function Shift(gs: seq<Group>, k: nat): int
    requires k <= |gs|
  {
    if k == 0 then 0 else 10 - (gs[0].to - gs[0].from) + Shift(gs[1..], k - 1)
  }

  /** Byte `x` follows the first `k` groups and precedes the others. */
  predicate After(gs: seq<Group>, k: nat, x: nat) {
    k <= |gs| && (forall i :: 0 <= i < k ==> gs[i].to <= x) && (forall i :: k <= i < |gs| ==> x < gs[i].from)
  }

  lemma {:induction false} RenderKeeps(value: seq<Byte>, gs: seq<Group>, index: nat, k: nat, x: nat)
    requires Within(gs, |value|) && Render(value, gs, index).Some? && index <= x < |value| && After(gs, k, x)
    ensures var out := Render(value, gs, index).value;
            0 <= x - index + Shift(gs, k) < |out| && out[x - index + Shift(gs, k)] == value[x]
  {
    if gs != [] && k > 0 {
      assert After(gs[1..], k - 1, x);
      RenderKeeps(value, gs[1..], gs[0].to, k - 1, x);
    }
  }

  lemma {:induction false} RenderMarks(value: seq<Byte>, gs: seq<Group>, index: nat, k: nat)
    requires Within(gs, |value|) && Render(value, gs, index).Some? && k < |gs|
    ensures MarkedAt(Render(value, gs, index).value, gs[k].from - index + Shift(gs, k))
  {
    var head := value[index..gs[0].from];
    var rest := Render(value, gs[1..], gs[0].to).value;
    if k > 0 {
      RenderMarks(value, gs[1..], gs[0].to, k - 1);
      MarkedLater(head + REDACTED, rest, gs[k].from - gs[0].to + Shift(gs[1..], k - 1));
    } else {
      MarkedFirst(head, rest);
    }
  }

  lemma MarkedFirst(head: seq<Byte>, rest: seq<Byte>)
    ensures MarkedAt(head + REDACTED + rest, |head|)
  {
    assert (head + REDACTED + rest)[|head|..|head| + 10] == REDACTED;
  }

  predicate MarkedAt(out: seq<Byte>, at: int) {
    0 <= at && at + 10 <= |out| && out[at..at + 10] == REDACTED
  }

  lemma MarkedLater(head: seq<Byte>, rest: seq<Byte>, at: int)
    requires MarkedAt(rest, at)
    ensures MarkedAt(head + rest, |head| + at)
  {
    assert (head + rest)[|head| + at..|head| + at + 10] == rest[at..at + 10];
  }

  lemma {:induction false} RenderLength(value: seq<Byte>, gs: seq<Group>, index: nat)
    requires Within(gs, |value|) && Render(value, gs, index).Some? && index <= |value|
    ensures |Render(value, gs, index).value| == |value| - index + Shift(gs, |gs|)
  {
    if gs != [] { RenderLength(value, gs[1..], gs[0].to); }
  }

  /** What is inside the groups has no influence on the output. */
  lemma {:induction false} RenderHides(v: seq<Byte>, w: seq<Byte>, gs: seq<Group>, index: nat)
    requires |v| == |w| && Within(gs, |v|)
    requires forall x :: index <= x < |v| && !Covered(gs, x) ==> v[x] == w[x]
    requires Apart(gs) && (gs != [] ==> index <= gs[0].from)
    ensures Render(v, gs, index) == Render(w, gs, index)
  {
    if gs == [] {
      assert index < |v| ==> v[index..] == w[index..];
    } else {
      var rest := gs[1..];
      RenderSucceeds(v, gs, index);
      RenderSucceeds(v, rest, gs[0].to);
      forall x | index <= x < gs[0].from ensures v[x] == w[x] { BeforeAll(gs, x); }
      assert v[index..gs[0].from] == w[index..gs[0].from];
      forall x | gs[0].to <= x < |v| && !Covered(rest, x) ensures v[x] == w[x] {
        forall k | 0 <= k < |gs| ensures !Holds(gs[k], x) {
          if k > 0 { assert gs[k] == rest[k - 1]; }
        }
      }
      RenderHides(v, w, rest, gs[0].to);
    }
  }

  lemma {:induction false} BeforeAll(gs: seq<Group>, x: nat)
    requires Apart(gs) && gs != [] && x < gs[0].from
    ensures !Covered(gs, x)
    ensures forall i :: 0 <= i < |gs| ==> gs[0].from <= gs[i].from
  {
    if |gs| > 1 {
      var rest := gs[1..];
      assert gs[0].to <= gs[0 + 1].from;
      forall i | 0 <= i < |rest| - 1 ensures rest[i].to <= rest[i + 1].from { assert gs[i + 1].to <= gs[i + 1 + 1].from; }
      BeforeAll(rest, x);
      assert forall i :: 0 < i < |gs| ==> gs[i] == rest[i - 1];
    }
  }

  // ----- the method

  /** The scan and the three ways it can end. */
  method AddMatch(gs: seq<Group>, m: Group) returns (r: seq<Group>)
    ensures r == Added(gs, m)
  {
    var i := 0;
    while i < |gs|
      invariant i <= |gs| && StopAt(gs, m) == i + StopAt(gs[i..], m)
    {
      if Overlaps(gs[i], m) {
        return gs[i := Joined(gs[i], m)];
      }
      if m.from < gs[i].from {
        return gs[..i] + [m] + gs[i..];
      }
      assert gs[i..][1..] == gs[i + 1..];
      i := i + 1;
    }
    assert gs[..i] + [m] + gs[i..] == gs + [m];
    return gs + [m];
  }

  method GroupMatches(patterns: seq<seq<Group>>) returns (gs: seq<Group>)
    ensures gs == Groups(Flat(patterns))
  {
    gs := [];
    for p := 0 to |patterns|
      invariant gs == Groups(Flat(patterns[..p]))
    {
      assert patterns[..p + 1][..p] == patterns[..p];
      gs := AddFound(gs, patterns[p], Flat(patterns[..p]));
    }
    assert patterns[..|patterns|] == patterns;
  }

  lemma OneMoreMatch(before: seq<Group>, found: seq<Group>, q: nat)
    requires q < |found|
    ensures Groups(before + found[..q + 1]) == Added(Groups(before + found[..q]), found[q])
  {
    var more := before + found[..q + 1];
    assert more[..|more| - 1] == before + found[..q] && more[|more| - 1] == found[q];
  }

  /** The matches of one pattern, in order. */
  method AddFound(gs: seq<Group>, found: seq<Group>, ghost before: seq<Group>) returns (r: seq<Group>)
    requires gs == Groups(before)
    ensures r == Groups(before + found)
  {
    r := gs;
    assert before + found[..0] == before;
    for q := 0 to |found|
      invariant r == Groups(before + found[..q])
    {
      OneMoreMatch(before, found, q);
      r := AddMatch(r, found[q]);
    }
    assert found[..|found|] == found;
  }

  /** The line with every group of matches replaced, or `None` where the original panics. */
  method Redact(value: seq<Byte>, patterns: seq<seq<Group>>) returns (r: Option<seq<Byte>>)
    requires Within(Flat(patterns), |value|)
    ensures r == Render(value, Groups(Flat(patterns)), 0)
    ensures r.Some? <==> NeverBridges(Flat(patterns))
    ensures Separated(Groups(Flat(patterns))) <==> NeverReachesTwo(Flat(patterns))
  {
    RedactSucceeds(value, Flat(patterns));
    GroupsSeparated(Flat(patterns));
    var matches := GroupMatches(patterns);
    if matches == [] {
      assert value[0..] == value;
      return Some(value);
    }
    r := Replace(value, matches);
  }

  method Replace(value: seq<Byte>, matches: seq<Group>) returns (r: Option<seq<Byte>>)
    ensures r == Render(value, matches, 0)
  {
    var redacted := [];
    var index: nat := 0;
    assert matches[0..] == matches;
    assert Prefixed([], Render(value, matches, 0)) == Render(value, matches, 0) by {
      var all := Render(value, matches, 0);
      if all.Some? { assert [] + all.value == all.value; }
    }
    for k := 0 to |matches|
      invariant Render(value, matches, 0) == Prefixed(redacted, Render(value, matches[k..], index))
    {
      assert matches[k..][1..] == matches[k + 1..];
      if !(index <= matches[k].from <= |value|) {
        return None;
      }
      ghost var rest := Render(value, matches[k + 1..], matches[k].to);
      PrefixedTwice(redacted, value[index..matches[k].from] + REDACTED, rest);
      redacted := redacted + (value[index..matches[k].from] + REDACTED);
      index := matches[k].to;
    }
    assert matches[|matches|..] == [];
    if index < |value| {
      redacted := redacted + value[index..];
    } else {
      assert redacted + [] == redacted;
    }
    return Some(redacted);
  }

  function Prefixed(head: seq<Byte>, rest: Option<seq<Byte>>): Option<seq<Byte>> {
    if rest.None? then None else Some(head + rest.value)
  }

  lemma PrefixedTwice(a: seq<Byte>, b: seq<Byte>, rest: Option<seq<Byte>>)
    ensures Prefixed(a, Prefixed(b, rest)) == Prefixed(a + b, rest)
  {
    if rest.Some? { assert a + (b + rest.value) == a + b + rest.value; }
  }

  lemma {:induction false} GroupsWithin(ms: seq<Group>, n: nat)
    requires Within(ms, n)
    ensures Within(Groups(ms), n)
  {
    if ms != [] { GroupsWithin(ms[..|ms| - 1], n); }
  }

  /** Redaction panics exactly when, in the order in which they are found, some match bridges two groups. */
  lemma RedactSucceeds(value: seq<Byte>, ms: seq<Group>)
    requires Within(ms, |value|)
    ensures Render(value, Groups(ms), 0).Some? <==> NeverBridges(ms)
  {
    GroupsWithin(ms, |value|);
    GroupsApart(ms);
    RenderSucceeds(value, Groups(ms), 0);
  }

  lemma TwoApart(b: Group, d: Group)
    requires b.to < d.from
    ensures Groups([b, d]) == [b, d]
  {
    assert [b, d][..1] == [b] && [b][..0] == [];
    assert Groups([b]) == Added([], b) == [b];
    assert [b][1..] == [] && StopAt([b], d) == 1;
  }

  /** Two patterns are enough: `b` and `d` are found first, then a match of `bcd` bridges them. */
  lemma BridgingPanics(value: seq<Byte>, b: Group, d: Group, bcd: Group)
    requires b.to < d.from && b.from <= bcd.from <= b.to && d.from < bcd.to && d.to <= |value| && bcd.to <= |value|
    ensures Render(value, Groups([b, d, bcd]), 0) == None
  {
    var ms := [b, d, bcd];
    assert ms[..2] == [b, d];
    TwoApart(b, d);
    assert StopAt([b, d], bcd) == 0;
    assert !NeverBridges(ms);
    RedactSucceeds(value, ms);
  }
}
