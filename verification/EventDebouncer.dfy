/** Per-path coalescing queues under a priority queue (common/fs/src/cache/event_debouncer.rs). */
module EventDebouncer {
  import opened Prelude

  datatype Path = Path(name: string)

  datatype WatchEvent =
    | Remove(path: Path)
    | Create(path: Path)
    | Write(path: Path)
    | Rename(path: Path, to: Path)
    | Rescan
    | Error

  const I64_MAX: int := 0x7FFF_FFFF_FFFF_FFFF

  /** A unix timestamp; calendar dates stay far below the largest `i64`. */
  type Timestamp = t: int | -I64_MAX <= t < I64_MAX

  datatype Timed = Timed(event: WatchEvent, ts: Timestamp)

  function PathId(e: WatchEvent): Option<Path> {
    if e.Rescan? || e.Error? then None else Some(e.path)
  }

  // ----- one path's events: the head of the queue is the end of the vector

  function UpdateFromBack(events: seq<Timed>, e: Timed): seq<Timed> {
    if e.event.Rescan? || e.event.Error? then events
    else if e.event.Write? && events != [] && events[0].event.Write? then
      events[0 := events[0].(ts := Min(events[0].ts, e.ts))]
    else [e] + events
  }

  function UpdateFromFront(events: seq<Timed>, e: Timed): seq<Timed> {
    var last := |events| - 1;
    if e.event.Write? && events != [] && events[last].event.Write? then
      events[last := events[last].(ts := Min(events[last].ts, e.ts))]
    else events + [e]
  }

  // ----- what that vector means: a first-in first-out queue, head first

  function Fifo(events: seq<Timed>): (q: seq<Timed>)
    ensures |q| == |events|
    ensures forall i :: 0 <= i < |q| ==> q[i] == events[|events| - 1 - i]
  {
    if events == [] then [] else Fifo(events[1..]) + [events[0]]
  }

  /** A Write that would follow a Write is absorbed by it, and the older time wins. */
  function Enqueued(q: seq<Timed>, e: Timed): seq<Timed> {
    if e.event.Write? && q != [] && q[|q| - 1].event.Write? then
      q[|q| - 1 := Timed(q[|q| - 1].event, Min(q[|q| - 1].ts, e.ts))]
    else q + [e]
  }

  function Requeued(q: seq<Timed>, e: Timed): seq<Timed> {
    if e.event.Write? && q != [] && q[0].event.Write? then
      q[0 := Timed(q[0].event, Min(q[0].ts, e.ts))]
    else [e] + q
  }

  lemma BackIsEnqueue(events: seq<Timed>, e: Timed)
    requires PathId(e.event).Some?
    ensures Fifo(UpdateFromBack(events, e)) == Enqueued(Fifo(events), e)
  {
    if events != [] && e.event.Write? && events[0].event.Write? {
      assert events[0 := events[0].(ts := Min(events[0].ts, e.ts))][1..] == events[1..];
    } else {
      assert ([e] + events)[1..] == events;
    }
  }

  lemma FrontIsRequeue(events: seq<Timed>, e: Timed)
    ensures Fifo(UpdateFromFront(events, e)) == Requeued(Fifo(events), e)
  {
    var q, r := Requeued(Fifo(events), e), UpdateFromFront(events, e);
    assert |Fifo(r)| == |q|;
    forall i | 0 <= i < |q| ensures Fifo(r)[i] == q[i] {}
  }

  ghost predicate NoAdjacentWrites(q: seq<Timed>) {
    forall i :: 0 <= i < |q| - 1 ==> !(q[i].event.Write? && q[i + 1].event.Write?)
  }

  ghost predicate Chronological(q: seq<Timed>) {
    forall i, j :: 0 <= i < j < |q| ==> q[i].ts <= q[j].ts
  }

  lemma CoalescingKeepsWritesApart(q: seq<Timed>, e: Timed)
    requires NoAdjacentWrites(q)
    ensures NoAdjacentWrites(Enqueued(q, e)) && NoAdjacentWrites(Requeued(q, e))
  {
    var r := Requeued(q, e);
    assert |r| == |q| + 1 ==> forall i :: 0 <= i < |q| ==> r[i + 1] == q[i];
    forall i | 0 <= i < |r| - 1 ensures !(r[i].event.Write? && r[i + 1].event.Write?) {
      if |r| == |q| + 1 && i > 0 { assert r[i] == q[i - 1] && r[i + 1] == q[i - 1 + 1]; }
    }
  }

  // ----- the queue of queues

  /** Every event sits under its own path, and no two Writes are neighbours. */
  predicate Proper(p: Path, q: seq<Timed>) {
    q == [] || (PathId(q[0].event) == Some(p)
                && (|q| > 1 && q[0].event.Write? ==> !q[1].event.Write?)
                && Proper(p, q[1..]))
  }

  predicate Rising(q: seq<Timed>) {
    |q| <= 1 || (q[0].ts <= q[1].ts && Rising(q[1..]))
  }

  lemma {:induction false} ProperMeans(p: Path, q: seq<Timed>)
    ensures Proper(p, q) <==> (forall i :: 0 <= i < |q| ==> PathId(q[i].event) == Some(p)) && NoAdjacentWrites(q)
  {
    if q != [] {
      var r := q[1..];
      ProperMeans(p, r);
      assert forall i :: 0 <= i < |r| ==> r[i] == q[i + 1];
      if NoAdjacentWrites(q) {
        forall i | 0 <= i < |r| - 1 ensures !(r[i].event.Write? && r[i + 1].event.Write?) {
          assert r[i] == q[i + 1] && r[i + 1] == q[i + 1 + 1];
        }
        if |q| > 1 { assert !(q[0].event.Write? && q[0 + 1].event.Write?); }
      }
      if Proper(p, q) {
        forall i | 0 <= i < |q| - 1 ensures !(q[i].event.Write? && q[i + 1].event.Write?) {
          if i > 0 { assert q[i] == r[i - 1] && q[i + 1] == r[i - 1 + 1]; }
        }
      }
    }
  }

  lemma {:induction false} RisingMeans(q: seq<Timed>)
    ensures Rising(q) <==> Chronological(q)
  {
    if |q| > 1 {
      var r := q[1..];
      RisingMeans(r);
      assert forall i :: 0 <= i < |r| ==> r[i] == q[i + 1];
      if Rising(q) {
        forall i, j | 0 <= i < j < |q| ensures q[i].ts <= q[j].ts {
          assert q[1].ts <= q[j].ts by { assert r[0].ts <= r[j - 1].ts; }
          if i > 0 { assert r[i - 1].ts <= r[j - 1].ts; }
        }
      }
    }
  }

  ghost predicate EntryOk(p: Path, q: seq<Timed>, priority: int) {
    && Proper(p, q)
    && (q == [] ==> priority == I64_MAX)
    && (q != [] ==> priority <= q[0].ts)
  }

  /** A smaller time is a higher priority; an arrival can only raise the priority of its path. */
  function Raised(priority: map<Path, int>, event: WatchEvent, ts: Timestamp): map<Path, int> {
    match PathId(event)
    case None => priority
    case Some(p) => priority[p := if p in priority then Min(ts, priority[p]) else ts]
  }

  ghost predicate IsTop(priority: map<Path, int>, p: Path) {
    p in priority && forall q :: q in priority ==> priority[p] <= priority[q]
  }

  function HeadTime(q: seq<Timed>): int { if q == [] then I64_MAX else q[0].ts }

  /** Events have arrived in time order, and the priority is the head's time. */
  ghost predicate EntryInOrder(q: seq<Timed>, priority: int) {
    Rising(q) && (q != [] ==> priority == q[0].ts)
  }

  lemma EntryEnqueue(p: Path, q: seq<Timed>, priority: int, e: Timed)
    requires EntryOk(p, q, priority) && PathId(e.event) == Some(p)
    ensures EntryOk(p, Enqueued(q, e), Min(e.ts, priority))
    ensures EntryInOrder(q, priority) && (q == [] || q[|q| - 1].ts <= e.ts) ==>
              EntryInOrder(Enqueued(q, e), Min(e.ts, priority))
  {
    ProperMeans(p, q);
    ProperMeans(p, Enqueued(q, e));
    CoalescingKeepsWritesApart(q, e);
    RisingMeans(q);
    RisingMeans(Enqueued(q, e));
  }

  lemma EntryRequeue(p: Path, q: seq<Timed>, priority: int, e: Timed)
    requires EntryOk(p, q, priority) && PathId(e.event) == Some(p)
    ensures EntryOk(p, Requeued(q, e), Min(e.ts, priority))
  {
    ProperMeans(p, q);
    ProperMeans(p, Requeued(q, e));
    CoalescingKeepsWritesApart(q, e);
  }

  lemma EntryPop(p: Path, q: seq<Timed>, priority: int)
    requires EntryOk(p, q, priority) && q != []
    ensures var next := if |q| > 1 then q[1].ts else I64_MAX;
            && EntryOk(p, q[1..], next)
            && (EntryInOrder(q, priority) ==> EntryInOrder(q[1..], next))
  {
  }

  lemma StoreFront(p: Path, entry: seq<Timed>, priority: int, e: Timed)
    requires EntryOk(p, Fifo(entry), priority) && PathId(e.event) == Some(p)
    ensures Fifo(UpdateFromFront(entry, e)) == Requeued(Fifo(entry), e)
    ensures EntryOk(p, Fifo(UpdateFromFront(entry, e)), Min(e.ts, priority))
  {
    FrontIsRequeue(entry, e);
    EntryRequeue(p, Fifo(entry), priority, e);
  }

  lemma StoreFirst(p: Path, e: Timed)
    requires PathId(e.event) == Some(p)
    ensures Fifo([e]) == [e] && EntryOk(p, Fifo([e]), e.ts) && EntryInOrder(Fifo([e]), e.ts)
    ensures Enqueued([], e) == [e] == Requeued([], e)
  {
  }

  class PrioritisedEventQueue {
    var events: map<Path, seq<Timed>>
    var priority: map<Path, int>

    constructor ()
      ensures Valid() && InOrder() && forall p :: Queue(p) == []
    {
      events, priority := map[], map[];
    }

    ghost predicate Valid()
      reads this
    {
      events.Keys == priority.Keys && forall p :: p in events ==> EntryOk(p, Fifo(events[p]), priority[p])
    }

    /** The abstract state: one queue for each path, empty for a path never seen. */
    ghost function Queue(p: Path): seq<Timed>
      reads this
    {
      if p in events then Fifo(events[p]) else []
    }

    ghost predicate InOrder()
      requires Valid()
      reads this
    {
      forall p :: p in events ==> EntryInOrder(Fifo(events[p]), priority[p])
    }

    /** The event is no older than anything queued for its path. */
    ghost predicate Newest(event: WatchEvent, ts: Timestamp)
      reads this
    {
      PathId(event).Some? ==> forall i :: 0 <= i < |Queue(event.path)| ==> Queue(event.path)[i].ts <= ts
    }

    method Store(p: Path, entry: seq<Timed>, entryPriority: int)
      requires Valid() && EntryOk(p, Fifo(entry), entryPriority)
      modifies this
      ensures Valid()
      ensures forall q :: Queue(q) == if q == p then Fifo(entry) else old(Queue(q))
      ensures priority == old(priority)[p := entryPriority]
      ensures old(InOrder()) && EntryInOrder(Fifo(entry), entryPriority) ==> InOrder()
    {
      events := events[p := entry];
      priority := priority[p := entryPriority];
    }

    method InsertEvent(event: WatchEvent, ts: Timestamp)
      requires Valid()
      modifies this
      ensures Valid()
      ensures forall p :: Queue(p) == if PathId(event) == Some(p) then Enqueued(old(Queue(p)), Timed(event, ts)) else old(Queue(p))
      ensures priority == Raised(old(priority), event, ts)
      ensures old(InOrder() && Newest(event, ts)) ==> InOrder()
    {
      var id := PathId(event);
      if id.Some? {
        var p := id.value;
        if p in priority {
          BackIsEnqueue(events[p], Timed(event, ts));
          EntryEnqueue(p, Fifo(events[p]), priority[p], Timed(event, ts));
          Store(p, UpdateFromBack(events[p], Timed(event, ts)), Min(ts, priority[p]));
        } else {
          StoreFirst(p, Timed(event, ts));
          Store(p, [Timed(event, ts)], ts);
        }
      }
    }

    method RequeueEvent(event: WatchEvent, ts: Timestamp)
      requires Valid()
      modifies this
      ensures Valid()
      ensures forall p :: Queue(p) == if PathId(event) == Some(p) then Requeued(old(Queue(p)), Timed(event, ts)) else old(Queue(p))
      ensures priority == Raised(old(priority), event, ts)
    {
      var id := PathId(event);
      if id.Some? {
        var p := id.value;
        if p in priority {
          StoreFront(p, events[p], priority[p], Timed(event, ts));
          Store(p, UpdateFromFront(events[p], Timed(event, ts)), Min(ts, priority[p]));
        } else {
          StoreFirst(p, Timed(event, ts));
          Store(p, [Timed(event, ts)], ts);
        }
      }
    }

    /** `e` was the head of the path `p`, which was on top, and is gone; the rest is as it was. */
    twostate predicate TookHead(p: Path, e: Timed)
      reads this
    {
      && IsTop(old(priority), p)
      && old(Queue(p)) == [e] + Queue(p)
      && (forall q :: q != p ==> Queue(q) == old(Queue(q)))
      && priority == old(priority)[p := HeadTime(Queue(p))]
    }

    /** Nothing that was queued anywhere is older than `e`. */
    twostate predicate WasOldest(e: Timed)
      reads this
    {
      forall q, i :: 0 <= i < |old(Queue(q))| ==> e.ts <= old(Queue(q))[i].ts
    }

    ghost predicate AllEmpty()
      reads this
    {
      forall p :: Queue(p) == []
    }

    /** The top of the priority queue gives up its head. Ties are broken in any way. */
    method Pop() returns (r: Option<Timed>)
      requires Valid()
      modifies this
      ensures Valid()
      ensures r.None? ==> unchanged(this) && AllEmpty()
      ensures r.Some? ==> PathId(r.value.event).Some? && TookHead(r.value.event.path, r.value)
      ensures old(InOrder()) ==> InOrder() && (r.Some? ==> WasOldest(r.value))
    {
      r := None;
      if priority != map[] {
        var p := PeekTop();
        if events[p] == [] {
          EmptyTop(p);
        } else {
          var e := PopTop(p);
          r := Some(e);
        }
      }
    }

    /** An empty path on top has the worst priority there is, so no path has events. */
    lemma EmptyTop(p: Path)
      requires Valid() && IsTop(priority, p) && events[p] == []
      ensures AllEmpty()
    {
      forall o ensures Queue(o) == [] {
        if o in events { assert EntryOk(o, Fifo(events[o]), priority[o]) && EntryOk(p, Fifo(events[p]), priority[p]); }
      }
    }

    lemma OldestTop(p: Path)
      requires Valid() && InOrder() && IsTop(priority, p) && events[p] != []
      ensures forall q, i :: 0 <= i < |Queue(q)| ==> Queue(p)[0].ts <= Queue(q)[i].ts
    {
      forall q, i | 0 <= i < |Queue(q)| ensures Queue(p)[0].ts <= Queue(q)[i].ts {
        assert EntryInOrder(Fifo(events[q]), priority[q]) && EntryInOrder(Fifo(events[p]), priority[p]);
        RisingMeans(Queue(q));
        assert Queue(q)[0].ts <= Queue(q)[i].ts;
      }
    }

    method PopTop(p: Path) returns (e: Timed)
      requires Valid() && IsTop(priority, p) && events[p] != []
      modifies this
      ensures Valid() && PathId(e.event) == Some(p) && TookHead(p, e)
      ensures old(InOrder()) ==> InOrder() && WasOldest(e)
    {
      ghost var q := Fifo(events[p]);
      assert EntryOk(p, q, priority[p]);
      EntryPop(p, q, priority[p]);
      if InOrder() { OldestTop(p); }
      var last := |events[p]| - 1;
      e := events[p][last];
      var rest := events[p][..last];
      assert q[0] == e && q == [e] + q[1..] && Fifo(rest) == q[1..];
      Store(p, rest, if rest != [] then rest[|rest| - 1].ts else I64_MAX);
    }

    method PeekTop() returns (p: Path)
      requires priority != map[]
      ensures IsTop(priority, p)
    {
      p :| p in priority;
      var rest := priority.Keys - {p};
      while rest != {}
        invariant p in priority && rest <= priority.Keys
        invariant forall q :: q in priority.Keys - rest ==> priority[p] <= priority[q]
        decreases rest
      {
        var q :| q in rest;
        if priority[q] < priority[p] { p := q; }
        rest := rest - {q};
      }
    }
  }

  // ----- whole runs, seen from one path

  /** What the loop does to one path's queue: a new event, an event put back, the head handed out. */
  datatype Op = Insert(e: Timed) | Requeue(e: Timed) | Take

  /** The events that are put back are Writes for files to be read on (common/fs/src/cache/mod.rs:207-221). */
  predicate RequeuesWrites(ops: seq<Op>) {
    forall i :: 0 <= i < |ops| && ops[i].Requeue? ==> ops[i].e.event.Write?
  }

  function NonWrites(q: seq<Timed>): seq<Timed> {
    if q == [] then []
    else NonWrites(q[..|q| - 1]) + if q[|q| - 1].event.Write? then [] else [q[|q| - 1]]
  }

  lemma NonWritesConcat(a: seq<Timed>, b: seq<Timed>)
    ensures NonWrites(a + b) == NonWrites(a) + NonWrites(b)
    decreases |b|
  {
    if b == [] {
      assert a + b == a;
    } else {
      assert (a + b)[..|a + b| - 1] == a + b[..|b| - 1];
      NonWritesConcat(a, b[..|b| - 1]);
    }
  }

  /** The queue and the events handed out after `ops`, starting from `q`. */
  function Played(q: seq<Timed>, ops: seq<Op>): (r: (seq<Timed>, seq<Timed>))
    decreases |ops|
  {
    if ops == [] then (q, [])
    else
      var (before, out) := Played(q, ops[..|ops| - 1]);
      match ops[|ops| - 1]
      case Insert(e) => (Enqueued(before, e), out)
      case Requeue(e) => (Requeued(before, e), out)
      case Take => if before == [] then (before, out) else (before[1..], out + [before[0]])
  }

  function Arrivals(ops: seq<Op>): seq<Timed> {
    if ops == [] then []
    else Arrivals(ops[..|ops| - 1]) + if ops[|ops| - 1].Insert? then [ops[|ops| - 1].e] else []
  }

  /** Every event that is not a Write comes out exactly once and in arrival order, whatever Writes are put back. */
  lemma {:induction false} DeliveredInOrder(q: seq<Timed>, ops: seq<Op>)
    requires RequeuesWrites(ops)
    ensures var (rest, out) := Played(q, ops);
            NonWrites(out) + NonWrites(rest) == NonWrites(q) + NonWrites(Arrivals(ops))
    decreases |ops|
  {
    if ops != [] {
      var ops' := ops[..|ops| - 1];
      DeliveredInOrder(q, ops');
      var (before, out) := Played(q, ops');
      match ops[|ops| - 1]
      case Insert(e) =>
        InsertKeeps(q, out, before, Arrivals(ops'), e);
      case Requeue(e) =>
        RequeueNonWrites(before, e);
        assert Arrivals(ops) == Arrivals(ops');
      case Take =>
        if before != [] { TakeKeeps(out, before); }
        assert Arrivals(ops) == Arrivals(ops');
    }
  }

  lemma InsertKeeps(q: seq<Timed>, out: seq<Timed>, before: seq<Timed>, arrived: seq<Timed>, e: Timed)
    requires NonWrites(out) + NonWrites(before) == NonWrites(q) + NonWrites(arrived)
    ensures NonWrites(out) + NonWrites(Enqueued(before, e)) == NonWrites(q) + NonWrites(arrived + [e])
  {
    EnqueueNonWrites(before, e);
    NonWritesConcat(arrived, [e]);
    BothLonger(NonWrites(out), NonWrites(before), NonWrites(q), NonWrites(arrived), NonWrites([e]));
  }

  lemma BothLonger<T>(a: seq<T>, b: seq<T>, c: seq<T>, d: seq<T>, more: seq<T>)
    requires a + b == c + d
    ensures a + (b + more) == c + (d + more)
  {
    assert a + (b + more) == a + b + more;
    assert c + (d + more) == c + d + more;
  }

  lemma TakeKeeps(out: seq<Timed>, before: seq<Timed>)
    requires before != []
    ensures NonWrites(out + [before[0]]) + NonWrites(before[1..]) == NonWrites(out) + NonWrites(before)
  {
    NonWritesShift(out, [before[0]], before[1..]);
    assert [before[0]] + before[1..] == before;
  }

  lemma NonWritesShift(a: seq<Timed>, b: seq<Timed>, c: seq<Timed>)
    ensures NonWrites(a + b) + NonWrites(c) == NonWrites(a) + NonWrites(b + c)
  {
    NonWritesConcat(a, b);
    NonWritesConcat(b, c);
  }

  lemma EnqueueNonWrites(q: seq<Timed>, e: Timed)
    ensures NonWrites(Enqueued(q, e)) == NonWrites(q) + NonWrites([e])
  {
    if e.event.Write? && q != [] && q[|q| - 1].event.Write? {
      assert Enqueued(q, e)[..|q| - 1] == q[..|q| - 1];
    } else {
      NonWritesConcat(q, [e]);
    }
  }

  lemma RequeueNonWrites(q: seq<Timed>, e: Timed)
    requires e.event.Write?
    ensures NonWrites(Requeued(q, e)) == NonWrites(q)
  {
    if q != [] && q[0].event.Write? {
      var r := Requeued(q, e);
      assert q == [q[0]] + q[1..] && r == [r[0]] + q[1..];
      NonWritesConcat([q[0]], q[1..]);
      NonWritesConcat([r[0]], q[1..]);
    } else {
      NonWritesConcat([e], q);
    }
  }

  // ----- what becomes of a Write

  /** There is a Write no younger than `ts`. */
  ghost predicate HasWrite(q: seq<Timed>, ts: Timestamp) {
    exists i :: 0 <= i < |q| && q[i].event.Write? && q[i].ts <= ts
  }

  /** A Write no younger than `ts` is queued, or was handed out after the first `seen` events were. */
  ghost predicate WriteDue(rest: seq<Timed>, out: seq<Timed>, seen: nat, ts: Timestamp)
    requires seen <= |out|
  {
    HasWrite(rest, ts) || HasWrite(out[seen..], ts)
  }

  lemma HasWriteConcat(a: seq<Timed>, b: seq<Timed>, ts: Timestamp)
    ensures HasWrite(a + b, ts) <==> HasWrite(a, ts) || HasWrite(b, ts)
  {
    if i :| 0 <= i < |a| && a[i].event.Write? && a[i].ts <= ts { assert (a + b)[i] == a[i]; }
    if i :| 0 <= i < |b| && b[i].event.Write? && b[i].ts <= ts { assert (a + b)[|a| + i] == b[i]; }
  }

  /** Absorption replaces a Write by one no younger; neither end of the queue loses one. */
  lemma QueueKeepsWrite(q: seq<Timed>, e: Timed, ts: Timestamp)
    ensures HasWrite(q, ts) || (e.event.Write? && e.ts <= ts) ==> HasWrite(Enqueued(q, e), ts) && HasWrite(Requeued(q, e), ts)
  {
    var r, r' := Enqueued(q, e), Requeued(q, e);
    if i :| 0 <= i < |q| && q[i].event.Write? && q[i].ts <= ts {
      assert r[i].event.Write? && r[i].ts <= ts;
      var i' := if |r'| == |q| then i else i + 1;
      assert r'[i'].event.Write? && r'[i'].ts <= ts;
    }
    if e.event.Write? && e.ts <= ts {
      assert r[|r| - 1].event.Write? && r[|r| - 1].ts <= ts;
      assert r'[0].event.Write? && r'[0].ts <= ts;
    }
  }

  lemma WriteDueTake(rest: seq<Timed>, out: seq<Timed>, seen: nat, ts: Timestamp)
    requires rest != [] && seen <= |out| && WriteDue(rest, out, seen, ts)
    ensures WriteDue(rest[1..], out + [rest[0]], seen, ts)
  {
    assert rest == [rest[0]] + rest[1..];
    assert (out + [rest[0]])[seen..] == out[seen..] + [rest[0]];
    HasWriteConcat([rest[0]], rest[1..], ts);
    HasWriteConcat(out[seen..], [rest[0]], ts);
  }

  lemma {:induction false} HandedOutGrows(q: seq<Timed>, ops: seq<Op>, i: nat)
    requires i <= |ops|
    ensures Played(q, ops[..i]).1 <= Played(q, ops).1
    decreases |ops|
  {
    if i < |ops| {
      HandedOutGrows(q, ops[..|ops| - 1], i);
      assert ops[..|ops| - 1][..i] == ops[..i];
    } else {
      assert ops[..i] == ops;
    }
  }

  /**
   A Write is never lost: at any time after it arrived, or was put back, a Write
   no younger than it is queued on its path or has been handed out since.
   */
  lemma {:induction false} WriteStaysPending(q: seq<Timed>, ops: seq<Op>, i: nat)
    requires i < |ops| && !ops[i].Take? && ops[i].e.event.Write?
    ensures var (rest, out) := Played(q, ops);
            var seen := |Played(q, ops[..i]).1|;
            seen <= |out| && WriteDue(rest, out, seen, ops[i].e.ts)
    decreases |ops|
  {
    var init := ops[..|ops| - 1];
    var (before, out) := Played(q, init);
    HandedOutGrows(q, ops, i);
    var seen, ts := |Played(q, ops[..i]).1|, ops[i].e.ts;
    if i == |init| {
      QueueKeepsWrite(before, ops[i].e, ts);
    } else {
      WriteStaysPending(q, init, i);
      assert init[..i] == ops[..i];
      match ops[|init|]
      case Insert(e) => QueueKeepsWrite(before, e, ts);
      case Requeue(e) => QueueKeepsWrite(before, e, ts);
      case Take => if before != [] { WriteDueTake(before, out, seen, ts); }
    }
  }

  // ----- the place of a Write among the other events

  /** Some Write no younger than `ts` comes right after the first `place` events that are no Writes. */
  ghost predicate WriteAt(all: seq<Timed>, place: nat, ts: Timestamp) {
    exists p :: 0 <= p < |all| && all[p].event.Write? && all[p].ts <= ts && |NonWrites(all[..p])| == place
  }

  /** Everything on the path: what was handed out, then what is queued. */
  function Stream(q: seq<Timed>, ops: seq<Op>): seq<Timed> { Played(q, ops).1 + Played(q, ops).0 }

  /** How many events that are no Writes an event has before it when it arrives, or is put back. */
  function Place(q: seq<Timed>, ops: seq<Op>, i: nat): nat
    requires i < |ops|
  {
    var (before, out) := Played(q, ops[..i]);
    if ops[i].Requeue? then |NonWrites(out)| else |NonWrites(out + before)|
  }

  lemma WriteAtLonger(all: seq<Timed>, more: seq<Timed>, place: nat, ts: Timestamp)
    requires WriteAt(all, place, ts)
    ensures WriteAt(all + more, place, ts)
  {
    var p :| 0 <= p < |all| && all[p].event.Write? && all[p].ts <= ts && |NonWrites(all[..p])| == place;
    assert (all + more)[..p] == all[..p] && (all + more)[p] == all[p];
  }

  /** Replacing a Write by one no younger. */
  lemma WriteAtAbsorbed(a: seq<Timed>, w: Timed, b: seq<Timed>, w': Timed, place: nat, ts: Timestamp)
    requires w.event.Write? && w'.event.Write? && w'.ts <= w.ts
    requires WriteAt(a + [w] + b, place, ts)
    ensures WriteAt(a + [w'] + b, place, ts)
  {
    var all, all' := a + [w] + b, a + [w'] + b;
    var p :| 0 <= p < |all| && all[p].event.Write? && all[p].ts <= ts && |NonWrites(all[..p])| == place;
    SameNonWrites(a, w, b, w', p);
    assert all'[p].event.Write? && all'[p].ts <= ts;
  }

  lemma SameNonWrites(a: seq<Timed>, w: Timed, b: seq<Timed>, w': Timed, p: nat)
    requires w.event.Write? && w'.event.Write? && p <= |a| + 1 + |b|
    ensures NonWrites((a + [w'] + b)[..p]) == NonWrites((a + [w] + b)[..p])
  {
    if p <= |a| {
      assert (a + [w'] + b)[..p] == a[..p] == (a + [w] + b)[..p];
    } else {
      var c := b[..p - |a| - 1];
      assert (a + [w'] + b)[..p] == a + ([w'] + c) && (a + [w] + b)[..p] == a + ([w] + c);
      NonWritesConcat(a, [w'] + c);
      NonWritesConcat(a, [w] + c);
      NonWritesConcat([w'], c);
      NonWritesConcat([w], c);
    }
  }

  /** One more Write anywhere leaves the places alone. */
  lemma WriteAtInserted(a: seq<Timed>, b: seq<Timed>, w: Timed, place: nat, ts: Timestamp)
    requires w.event.Write? && WriteAt(a + b, place, ts)
    ensures WriteAt(a + [w] + b, place, ts)
  {
    var all, all' := a + b, a + [w] + b;
    var p :| 0 <= p < |all| && all[p].event.Write? && all[p].ts <= ts && |NonWrites(all[..p])| == place;
    if p < |a| {
      assert all'[..p] == all[..p] && all'[p] == all[p];
    } else {
      var c := b[..p - |a|];
      assert all'[..p + 1] == a + ([w] + c) && all[..p] == a + c && all'[p + 1] == all[p];
      NonWritesConcat(a, [w] + c);
      NonWritesConcat([w], c);
      NonWritesConcat(a, c);
    }
  }

  /** Right after it arrived a Write has the place of its arrival. */
  lemma WriteArrives(out: seq<Timed>, q: seq<Timed>, e: Timed)
    requires e.event.Write?
    ensures WriteAt(out + Enqueued(q, e), |NonWrites(out + q)|, e.ts)
    ensures WriteAt(out + Requeued(q, e), |NonWrites(out)|, e.ts)
  {
    var back, front := out + Enqueued(q, e), out + Requeued(q, e);
    if q != [] && q[|q| - 1].event.Write? {
      var p := |out| + |q| - 1;
      var init := q[..|q| - 1];
      assert back[..p] == out + init && back[p] == Enqueued(q, e)[|q| - 1];
      assert out + q == (out + init) + [q[|q| - 1]];
      NonWritesConcat(out + init, [q[|q| - 1]]);
    } else {
      assert back[..|out| + |q|] == out + q && back[|out| + |q|] == e;
    }
    assert front[..|out|] == out && front[|out|] == Requeued(q, e)[0];
  }

  lemma PlaceKeptByEnqueue(out: seq<Timed>, q: seq<Timed>, e: Timed, place: nat, ts: Timestamp)
    requires WriteAt(out + q, place, ts)
    ensures WriteAt(out + Enqueued(q, e), place, ts)
  {
    if e.event.Write? && q != [] && q[|q| - 1].event.Write? {
      var init, w, w' := q[..|q| - 1], q[|q| - 1], Enqueued(q, e)[|q| - 1];
      assert out + q == (out + init) + [w] + [] && out + Enqueued(q, e) == (out + init) + [w'] + [];
      WriteAtAbsorbed(out + init, w, [], w', place, ts);
    } else {
      assert out + (q + [e]) == (out + q) + [e];
      WriteAtLonger(out + q, [e], place, ts);
    }
  }

  lemma PlaceKeptByRequeue(out: seq<Timed>, q: seq<Timed>, e: Timed, place: nat, ts: Timestamp)
    requires e.event.Write? && WriteAt(out + q, place, ts)
    ensures WriteAt(out + Requeued(q, e), place, ts)
  {
    if q != [] && q[0].event.Write? {
      var w, w', tail := q[0], Requeued(q, e)[0], q[1..];
      assert out + q == out + [w] + tail && out + Requeued(q, e) == out + [w'] + tail;
      WriteAtAbsorbed(out, w, tail, w', place, ts);
    } else {
      assert out + ([e] + q) == out + [e] + q;
      WriteAtInserted(out, q, e, place, ts);
    }
  }

  /**
   A Write keeps its place among the other events: over any run it, or an older one
   that absorbed it, comes out after exactly those events that are no Writes which
   were ahead of it when it arrived or was put back.
   */
  lemma {:induction false} WriteKeepsItsPlace(q: seq<Timed>, ops: seq<Op>, i: nat)
    requires RequeuesWrites(ops) && i < |ops| && !ops[i].Take? && ops[i].e.event.Write?
    ensures WriteAt(Stream(q, ops), Place(q, ops, i), ops[i].e.ts)
    decreases |ops|
  {
    var n := |ops| - 1;
    var (before, out) := Played(q, ops[..n]);
    if i == n {
      WriteArrives(out, before, ops[i].e);
    } else {
      WriteKeepsItsPlace(q, ops[..n], i);
      assert ops[..n][..i] == ops[..i] && ops[..n][i] == ops[i];
      var place, ts := Place(q, ops, i), ops[i].e.ts;
      assert WriteAt(out + before, place, ts);
      match ops[n]
      case Insert(e) => PlaceKeptByEnqueue(out, before, e, place, ts);
      case Requeue(e) => PlaceKeptByRequeue(out, before, e, place, ts);
      case Take => if before != [] { assert (out + [before[0]]) + before[1..] == out + before; }
    }
  }
}
