/** Lines gathered into request bodies by size and by time (common/http/src/batch.rs:109-205). */
module BatchStream {
  import opened Prelude
  import opened Spans
  import opened OffsetMaps

  /** A line, the place it was read from when it has one, and whether it can be serialised. */
  datatype Line = Line(text: string, place: Option<(FileId, Span)>, writable: bool)

  datatype Event = Item(line: Line) | Timeout

  /** How many bytes a body with these lines takes, and whether it can be closed; the serialiser itself is not modelled. */
  datatype Serializer = Serializer(measure: seq<Line> -> nat, closable: seq<Line> -> bool)

  datatype Batch =
    | Full(lines: seq<Line>, offsets: Offsets)
    | Partial(lines: seq<Line>, offsets: Offsets)
    /** Serialisation failed on the last line, and the whole body is given up. */
    | Failed(lines: seq<Line>)
    /** The body could not be closed, and is given up too. */
    | Unclosed(lines: seq<Line>)

  function Lines(events: seq<Event>): seq<Line> {
    if events == [] then []
    else if events[|events| - 1].Item? then Lines(events[..|events| - 1]) + [events[|events| - 1].line]
    else Lines(events[..|events| - 1])
  }

  lemma {:induction false} LinesConcat(a: seq<Event>, b: seq<Event>)
    ensures Lines(a + b) == Lines(a) + Lines(b)
    decreases |b|
  {
    if b == [] {
      assert a + b == a;
    } else {
      assert (a + b)[..|a + b| - 1] == a + b[..|b| - 1];
      LinesConcat(a, b[..|b| - 1]);
    }
  }

  function OffsetsOf(lines: seq<Line>): Offsets {
    if lines == [] then map[]
    else
      var rest := OffsetsOf(lines[..|lines| - 1]);
      match lines[|lines| - 1].place
      case None => rest
      case Some((file, span)) => AddSpan(rest, file, span)
  }

  predicate PlacedAt(line: Line, f: FileId, x: int) {
    line.place.Some? && line.place.value.0 == f && In(x, line.place.value.1)
  }

  /** A batch's offsets are, for each file, exactly those of its own lines. */
  lemma {:induction false} OffsetsExact(lines: seq<Line>, f: FileId, x: int)
    ensures Ordered(OffsetsOf(lines))
    ensures Covers(SpansOf(OffsetsOf(lines), f), x) <==> exists i :: 0 <= i < |lines| && PlacedAt(lines[i], f, x)
  {
    if lines != [] {
      var init, last := lines[..|lines| - 1], lines[|lines| - 1];
      OffsetsExact(init, f, x);
      assert forall i :: 0 <= i < |init| ==> lines[i] == init[i];
      match last.place
      case None =>
      case Some((file, span)) => AddSpanCovers(OffsetsOf(init), file, span, f, x);
      if PlacedAt(last, f, x) { assert PlacedAt(lines[|lines| - 1], f, x); }
      if i :| 0 <= i < |lines| && PlacedAt(lines[i], f, x) && i < |init| { assert PlacedAt(init[i], f, x); }
      if i :| 0 <= i < |init| && PlacedAt(init[i], f, x) { assert PlacedAt(lines[i], f, x); }
    }
  }

  /** Neither the size nor a failure has closed the body yet. */
  ghost predicate StillOpen(lines: seq<Line>, ser: Serializer, capacity: nat) {
    (forall i :: 0 <= i < |lines| ==> lines[i].writable) &&
    (forall n :: 0 < n <= |lines| ==> ser.measure(lines[..n]) < capacity)
  }

  /** The last event is a line, and only with it was capacity reached. */
  ghost predicate BySize(lines: seq<Line>, events: seq<Event>, ser: Serializer, capacity: nat) {
    var n, last := |events|, |lines| - 1;
    && n > 0 && events[n - 1].Item?
    && last >= 0 && lines[last].writable && StillOpen(lines[..last], ser, capacity) && ser.measure(lines) >= capacity
  }

  ghost predicate ByTime(lines: seq<Line>, events: seq<Event>, ended: bool, ser: Serializer, capacity: nat) {
    var n := |events|;
    StillOpen(lines, ser, capacity) && (ended || (n > 0 && events[n - 1].Timeout?))
  }

  /** No line had come before any of these timeouts. */
  ghost predicate TimeoutsFirst(events: seq<Event>) {
    forall i :: 0 <= i < |events| && events[i].Timeout? ==> Lines(events[..i]) == []
  }

  /** A timeout that follows a line closes the batch, so it can only be the last event. */
  ghost predicate Prompt(events: seq<Event>) {
    events != [] ==> TimeoutsFirst(events[..|events| - 1])
  }

  lemma TimeoutsStayFirst(events: seq<Event>, e: Event)
    requires TimeoutsFirst(events) && (e.Timeout? ==> Lines(events) == [])
    ensures TimeoutsFirst(events + [e])
  {
    var more := events + [e];
    forall i | 0 <= i < |more| && more[i].Timeout? ensures Lines(more[..i]) == [] {
      assert more[..i] == if i < |events| then events[..i] else events;
    }
  }

  lemma SoonerPrompt(events: seq<Event>, e: Event)
    requires TimeoutsFirst(events)
    ensures Prompt(events) && Prompt(events + [e])
  {
    assert (events + [e])[..|events|] == events;
    if events != [] {
      var init := events[..|events| - 1];
      forall i | 0 <= i < |init| && init[i].Timeout? ensures Lines(init[..i]) == [] { assert init[..i] == events[..i]; }
    }
  }

  /** What closes a batch, in terms of the events it was made from. */
  ghost predicate Closes(b: Batch, events: seq<Event>, ended: bool, ser: Serializer, capacity: nat) {
    var n, lines := |events|, b.lines;
    && lines == Lines(events) && lines != [] && Prompt(events)
    && match b
       case Full(_, offsets) =>
         offsets == OffsetsOf(lines) && ser.closable(lines) && BySize(lines, events, ser, capacity)
       case Partial(_, offsets) =>
         offsets == OffsetsOf(lines) && ser.closable(lines) && ByTime(lines, events, ended, ser, capacity)
       case Unclosed(_) =>
         !ser.closable(lines) && (BySize(lines, events, ser, capacity) || ByTime(lines, events, ended, ser, capacity))
       case Failed(_) =>
         n > 0 && events[n - 1].Item? && !lines[|lines| - 1].writable && StillOpen(lines[..|lines| - 1], ser, capacity)
  }

  class Batcher {
    /** The events that the rest of the stream will bring; its end is the end of the stream. */
    var input: seq<Event>
    const capacity: nat
    const ser: Serializer

    constructor (input: seq<Event>, capacity: nat, ser: Serializer)
      requires capacity > 0
      ensures this.input == input && this.capacity == capacity && this.ser == ser
    {
      this.input, this.capacity, this.ser := input, capacity, ser;
    }

    /** One pull on the batch stream; `used` is what it takes from the input. */
    method Next() returns (r: Option<Batch>, ghost used: seq<Event>)
      modifies this
      ensures used + input == old(input)
      ensures match r
              case None => input == [] && Lines(used) == []
              case Some(b) => Closes(b, used, input == [], ser, capacity)
    {
      var lines: seq<Line> := [];
      var offsets := new OffsetMap();
      used := [];
      while input != []
        invariant used + input == old(input)
        invariant lines == Lines(used) && StillOpen(lines, ser, capacity) && TimeoutsFirst(used)
        invariant !offsets.shared && fresh(offsets) && offsets.inner == OffsetsOf(lines) && Ordered(offsets.inner)
        decreases |input|
      {
        var event := input[0];
        ghost var before := used;
        MoveFirst(used, input);
        SoonerPrompt(used, event);
        if event.Item? || lines == [] { TimeoutsStayFirst(used, event); }
        used, input := used + [event], input[1..];
        match event {
          case Item(line) =>
            AddPlace(offsets, lines, line);
            OneMoreItem(before, line);
            OneMoreLine(lines, line, ser, capacity);
            lines := lines + [line];
            if !line.writable {
              ItemFails(used, lines, input == [], ser, capacity);
              return Some(Failed(lines)), used;
            }
            if ser.measure(lines) >= capacity {
              return Some(if ser.closable(lines) then Full(lines, offsets.inner) else Unclosed(lines)), used;
            }
          case Timeout =>
            TimeoutTaken(before, lines, input == [], ser, capacity);
            if |lines| > 0 {
              return Some(if ser.closable(lines) then Partial(lines, offsets.inner) else Unclosed(lines)), used;
            }
        }
      }
      assert used + [] == used;
      SoonerPrompt(used, Timeout);
      if |lines| > 0 {
        return Some(if ser.closable(lines) then Partial(lines, offsets.inner) else Unclosed(lines)), used;
      }
      return None, used;
    }
  }

  lemma MoveFirst(used: seq<Event>, input: seq<Event>)
    requires input != []
    ensures (used + [input[0]]) + input[1..] == used + input
  {
  }

  lemma OneMoreItem(used: seq<Event>, line: Line)
    ensures Lines(used + [Item(line)]) == Lines(used) + [line]
  {
    assert (used + [Item(line)])[..|used|] == used;
  }

  /** The line cannot be written. */
  lemma ItemFails(used: seq<Event>, lines: seq<Line>, ended: bool, ser: Serializer, capacity: nat)
    requires used != [] && used[|used| - 1].Item? && Prompt(used) && lines == Lines(used)
    requires lines != [] && !lines[|lines| - 1].writable && StillOpen(lines[..|lines| - 1], ser, capacity)
    ensures Closes(Failed(lines), used, ended, ser, capacity)
  {
  }

  lemma TimeoutTaken(used: seq<Event>, lines: seq<Line>, ended: bool, ser: Serializer, capacity: nat)
    requires lines == Lines(used) && StillOpen(lines, ser, capacity)
    ensures Lines(used + [Timeout]) == lines
    ensures ByTime(lines, used + [Timeout], ended, ser, capacity)
  {
    assert (used + [Timeout])[..|used|] == used;
  }

  method AddPlace(offsets: OffsetMap, ghost lines: seq<Line>, line: Line)
    requires !offsets.shared && offsets.inner == OffsetsOf(lines) && Ordered(offsets.inner)
    modifies offsets
    ensures !offsets.shared && offsets.inner == OffsetsOf(lines + [line]) && Ordered(offsets.inner)
  {
    assert (lines + [line])[..|lines|] == lines;
    if line.place.Some? {
      var _ := offsets.Insert(line.place.value.0, line.place.value.1);
    }
  }

  lemma OneMoreLine(lines: seq<Line>, line: Line, ser: Serializer, capacity: nat)
    requires StillOpen(lines, ser, capacity)
    ensures (lines + [line])[..|lines|] == lines
    ensures line.writable && ser.measure(lines + [line]) < capacity ==> StillOpen(lines + [line], ser, capacity)
  {
    var more := lines + [line];
    if line.writable && ser.measure(more) < capacity {
      forall n | 0 < n <= |more| ensures ser.measure(more[..n]) < capacity {
        if n <= |lines| { assert more[..n] == lines[..n]; } else { assert more[..n] == more; }
      }
    }
  }

  // ----- whole runs

  function AllLines(batches: seq<Batch>): seq<Line> {
    if batches == [] then [] else AllLines(batches[..|batches| - 1]) + batches[|batches| - 1].lines
  }

  function AllEvents(pieces: seq<seq<Event>>): seq<Event> {
    if pieces == [] then [] else AllEvents(pieces[..|pieces| - 1]) + pieces[|pieces| - 1]
  }

  /** Each batch was made from its own piece of the stream, and only the last one may have been closed by its end. */
  ghost predicate MadeFrom(batches: seq<Batch>, pieces: seq<seq<Event>>, ended: bool, ser: Serializer, capacity: nat) {
    && |batches| == |pieces|
    && forall i :: 0 <= i < |batches| ==> Closes(batches[i], pieces[i], ended && i == |batches| - 1, ser, capacity)
  }

  lemma MadeBefore(batches: seq<Batch>, pieces: seq<seq<Event>>, ended: bool, ser: Serializer, capacity: nat)
    requires MadeFrom(batches, pieces, ended, ser, capacity) && batches != []
    ensures var n := |batches| - 1;
            MadeFrom(batches[..n], pieces[..n], false, ser, capacity) && batches[n].lines == Lines(pieces[n])
  {
    var n := |batches| - 1;
    assert Closes(batches[n], pieces[n], ended, ser, capacity);
    forall i | 0 <= i < n ensures Closes(batches[..n][i], pieces[..n][i], false, ser, capacity) {
      assert Closes(batches[i], pieces[i], false, ser, capacity);
    }
  }

  /** Concatenating the batches gives back the lines, in order and once each. */
  lemma {:induction false} BatchesConcatenate(batches: seq<Batch>, pieces: seq<seq<Event>>, ended: bool, ser: Serializer, capacity: nat)
    requires MadeFrom(batches, pieces, ended, ser, capacity)
    ensures AllLines(batches) == Lines(AllEvents(pieces))
    decreases |batches|
  {
    if batches != [] {
      var n := |batches| - 1;
      MadeBefore(batches, pieces, ended, ser, capacity);
      BatchesConcatenate(batches[..n], pieces[..n], false, ser, capacity);
      LinesConcat(AllEvents(pieces[..n]), pieces[n]);
    }
  }

  lemma OneMoreBatch(batches: seq<Batch>, pieces: seq<seq<Event>>, b: Batch, used: seq<Event>, rest: seq<Event>,
                     ser: Serializer, capacity: nat)
    requires MadeFrom(batches, pieces, false, ser, capacity) && Closes(b, used, rest == [], ser, capacity)
    ensures MadeFrom(batches + [b], pieces + [used], rest == [], ser, capacity)
    ensures AllEvents(pieces + [used]) + rest == AllEvents(pieces) + (used + rest)
    ensures |rest| < |used + rest|
  {
    assert (pieces + [used])[..|pieces|] == pieces;
    assert AllEvents(pieces) + used + rest == AllEvents(pieces) + (used + rest);
    forall i | 0 <= i < |batches| ensures Closes((batches + [b])[i], (pieces + [used])[i], false, ser, capacity) {
      assert Closes(batches[i], pieces[i], false, ser, capacity);
    }
  }

  lemma LastPull(batches: seq<Batch>, pieces: seq<seq<Event>>, left: seq<Event>, ended: bool, ser: Serializer, capacity: nat)
    requires MadeFrom(batches, pieces, ended, ser, capacity) && Lines(left) == []
    ensures AllLines(batches) == Lines(AllEvents(pieces) + left)
  {
    LinesConcat(AllEvents(pieces), left);
    BatchesConcatenate(batches, pieces, ended, ser, capacity);
  }

  // ----- which lines get through

  /** The lines of the bodies that are handed out; those of the others are lost. */
  function Delivered(batches: seq<Batch>): seq<Line> {
    if batches == [] then []
    else
      var b := batches[|batches| - 1];
      Delivered(batches[..|batches| - 1]) + if b.Full? || b.Partial? then b.lines else []
  }

  ghost predicate AllGood(batches: seq<Batch>) {
    forall b :: b in batches ==> b.Full? || b.Partial?
  }

  lemma {:induction false} DeliveredAll(batches: seq<Batch>)
    requires forall b :: b in batches ==> b.lines != []
    ensures |Delivered(batches)| <= |AllLines(batches)|
    ensures AllGood(batches) <==> |Delivered(batches)| == |AllLines(batches)|
    ensures AllGood(batches) ==> Delivered(batches) == AllLines(batches)
  {
    if batches != [] {
      var init, last := batches[..|batches| - 1], batches[|batches| - 1];
      assert batches == init + [last];
      DeliveredAll(init);
    }
  }

  predicate AllWritable(lines: seq<Line>) {
    forall l :: l in lines ==> l.writable
  }

  lemma {:induction false} WritableInBatches(batches: seq<Batch>)
    ensures AllWritable(AllLines(batches)) <==> forall b :: b in batches ==> AllWritable(b.lines)
  {
    if batches != [] {
      var init, last := batches[..|batches| - 1], batches[|batches| - 1];
      assert batches == init + [last];
      WritableInBatches(init);
      assert forall l :: l in AllLines(batches) <==> l in AllLines(init) || l in last.lines;
    }
  }

  /** Which of the four a body becomes depends on its last line and on its closing only. */
  lemma GoodExactly(b: Batch, events: seq<Event>, ended: bool, ser: Serializer, capacity: nat)
    requires Closes(b, events, ended, ser, capacity)
    ensures b.Full? || b.Partial? <==> AllWritable(b.lines) && ser.closable(b.lines)
  {
    var last := |b.lines| - 1;
    assert b.lines == b.lines[..last] + [b.lines[last]];
    assert b.lines[last] in b.lines;
  }

  /** Every line gets through if and only if every line can be written and every body closed. */
  lemma DeliveredExactly(batches: seq<Batch>, pieces: seq<seq<Event>>, ended: bool, ser: Serializer, capacity: nat)
    requires MadeFrom(batches, pieces, ended, ser, capacity)
    ensures Delivered(batches) == AllLines(batches) <==>
            AllWritable(AllLines(batches)) && forall b :: b in batches ==> ser.closable(b.lines)
  {
    forall b | b in batches ensures b.lines != [] && (b.Full? || b.Partial? <==> AllWritable(b.lines) && ser.closable(b.lines)) {
      var i :| 0 <= i < |batches| && batches[i] == b;
      GoodExactly(b, pieces[i], ended && i == |batches| - 1, ser, capacity);
    }
    DeliveredAll(batches);
    WritableInBatches(batches);
  }

  /** Pull until the stream ends: every line of the input is in one body, and which lines get through is known exactly. */
  method Drain(input: seq<Event>, capacity: nat, ser: Serializer) returns (batches: seq<Batch>, ghost pieces: seq<seq<Event>>)
    requires capacity > 0
    ensures AllLines(batches) == Lines(input)
    ensures Delivered(batches) == Lines(input) <==> AllWritable(Lines(input)) && forall b :: b in batches ==> ser.closable(b.lines)
    ensures MadeFrom(batches, pieces, true, ser, capacity)
  {
    var batcher := new Batcher(input, capacity, ser);
    ghost var ended := false;
    batches, pieces := [], [];
    var next, used := batcher.Next();
    assert AllEvents([]) + (used + batcher.input) == input;
    while next.Some?
      invariant batcher.ser == ser && batcher.capacity == capacity
      invariant AllEvents(pieces) + (used + batcher.input) == input
      invariant MadeFrom(batches, pieces, ended, ser, capacity)
      invariant ended ==> used == [] && batcher.input == []
      invariant next.Some? ==> Closes(next.value, used, batcher.input == [], ser, capacity)
      invariant next.None? ==> batcher.input == [] && Lines(used) == []
      decreases next.Some?, |used + batcher.input|
    {
      // a batch made from nothing has no lines, so the one before did not see the end
      assert !ended;
      OneMoreBatch(batches, pieces, next.value, used, batcher.input, ser, capacity);
      ended := batcher.input == [];
      batches, pieces := batches + [next.value], pieces + [used];
      next, used := batcher.Next();
    }
    assert used + batcher.input == used;
    LastPull(batches, pieces, used, ended, ser, capacity);
    EndedIsLast(batches, pieces, ended, ser, capacity);
    DeliveredExactly(batches, pieces, true, ser, capacity);
  }

  lemma EndedIsLast(batches: seq<Batch>, pieces: seq<seq<Event>>, ended: bool, ser: Serializer, capacity: nat)
    requires MadeFrom(batches, pieces, ended, ser, capacity)
    ensures MadeFrom(batches, pieces, true, ser, capacity)
  {
    forall i | 0 <= i < |batches| ensures Closes(batches[i], pieces[i], i == |batches| - 1, ser, capacity) {
      assert Closes(batches[i], pieces[i], ended && i == |batches| - 1, ser, capacity);
    }
  }
}
