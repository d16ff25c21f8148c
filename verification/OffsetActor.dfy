/** The offset map that travels with a batch (common/state/src/offsets.rs). */
module OffsetMaps {
  import opened Prelude
  import opened Spans
  import opened SpanVecs

  type FileId = nat

  /** For each file, the spans of the lines that a batch carries. */
  type Offsets = map<FileId, seq<Span>>

  function SpansOf(m: Offsets, file: FileId): seq<Span> {
    if file in m then m[file] else []
  }

  function AddSpan(m: Offsets, file: FileId, span: Span): Offsets {
    m[file := Inserted(SpansOf(m, file), span)]
  }

  ghost predicate Ordered(m: Offsets) {
    forall f :: f in m ==> StrictStarts(m[f])
  }

  /** Adding a span adds its offsets to its own file and changes no other file. */
  lemma AddSpanCovers(m: Offsets, file: FileId, span: Span, f: FileId, x: int)
    ensures Covers(SpansOf(AddSpan(m, file, span), f), x) <==>
            Covers(SpansOf(m, f), x) || (f == file && In(x, span))
    ensures Ordered(m) ==> Ordered(AddSpan(m, file, span))
  {
    InsertedCovers(SpansOf(m, file), span, x);
    if Ordered(m) { InsertedStarts(SpansOf(m, file), span); }
  }

  class OffsetMap {
    var inner: Offsets
    /** Another handle to the same map exists. */
    var shared: bool

    constructor ()
      ensures inner == map[] && !shared
    {
      inner := map[];
      shared := false;
    }

    method Insert(file: FileId, span: Span) returns (ok: bool)
      requires Ordered(inner)
      modifies `inner
      ensures ok == !shared
      ensures inner == if ok then AddSpan(old(inner), file, span) else old(inner)
      ensures Ordered(inner)
    {
      if shared {
        return false;
      }
      AddSpanCovers(inner, file, span, file, 0);
      var spanVec;
      if file in inner {
        spanVec := new SpanVec.From(inner[file]);
        spanVec.Insert(span);
      } else {
        spanVec := new SpanVec();
        spanVec.Insert(span);
      }
      inner := inner[file := spanVec.spans];
      return true;
    }
  }
}

/**
 The actor that owns the acknowledged offsets (common/state/src/state.rs:233-402).

 Batches are staged under a key and merged into the in-memory spans when their
 key is flushed; every flush writes the rows of the files it touched.
 */
module OffsetActor {
  import opened Prelude
  import opened Spans
  import opened SpanVecs
  import opened OffsetMaps
  import opened Codec

  /** Slot-map keys: never handed out twice. */
  type Key = nat

  type Rows = map<FileId, seq<Byte>>

  datatype WriteOp = Put(file: FileId, row: seq<Byte>) | Remove(file: FileId)

  datatype Event =
    | Flush(key: Option<Key>)
    | Update(offsets: Offsets)
    | Delete(file: FileId)
    | Clear
    | GarbageCollect(retained: set<FileId>)

  /** An event together with what the database does while it is handled. */
  datatype Input = Input(event: Event, handleOk: bool, writeOk: bool)

  datatype State = State(
    files: Offsets,
    pending: map<Key, Offsets>,
    nextKey: Key,
    batch: Option<seq<WriteOp>>,
    db: Rows
  )

  // ----- what a write does to the database

  function ApplyOp(db: Rows, op: WriteOp): Rows {
    match op
    case Put(f, row) => db[f := row]
    case Remove(f) => db - {f}
  }

  function ApplyOps(db: Rows, ops: seq<WriteOp>): Rows {
    if ops == [] then db else ApplyOp(ApplyOps(db, ops[..|ops| - 1]), ops[|ops| - 1])
  }

  // ----- specification of one event

  function MergedSpans(files: Offsets, staged: Offsets, f: FileId): seq<Span> {
    InsertedAll(SpansOf(files, f), SpansOf(staged, f))
  }

  /** The scratch map once the files `fs` of the batch have been merged into it. */
  function Scratch(files: Offsets, staged: Offsets, fs: set<FileId>): Offsets {
    map f | f in fs :: MergedSpans(files, staged, f)
  }

  /** Only files with some span are kept in memory and written out. */
  function Kept(m: Offsets): Offsets {
    map f | f in m && m[f] != [] :: m[f]
  }

  function RowsOf(m: Offsets): Rows {
    map f | f in m && m[f] != [] :: Encode(m[f])
  }

  function MergedFiles(files: Offsets, staged: Offsets): Offsets {
    (files - staged.Keys) + Kept(Scratch(files, staged, staged.Keys))
  }

  function MergedRows(files: Offsets, staged: Offsets): Rows {
    RowsOf(Scratch(files, staged, staged.Keys))
  }

  function StagedOps(s: State): seq<WriteOp> {
    if s.batch.Some? then s.batch.value else []
  }

  /** The batch that a flush merges: none for no key, and none for a stale one. */
  function FlushedBatch(s: State, key: Option<Key>): Offsets {
    if key.Some? && key.value in s.pending then s.pending[key.value] else map[]
  }

  function StepFlush(s: State, key: Option<Key>, writeOk: bool): State {
    var staged := FlushedBatch(s, key);
    s.(files := MergedFiles(s.files, staged),
       pending := if key.Some? then s.pending - {key.value} else s.pending,
       batch := None,
       db := if writeOk then ApplyOps(s.db, StagedOps(s)) + MergedRows(s.files, staged) else s.db)
  }

  function Step(s: State, input: Input): State {
    if !input.handleOk then s
    else match input.event
      case Flush(key) => StepFlush(s, key, input.writeOk)
      case Update(offsets) => s.(pending := s.pending[s.nextKey := offsets], nextKey := s.nextKey + 1)
      case Delete(f) => s.(files := s.files - {f}, batch := Some(StagedOps(s) + [WriteOp.Remove(f)]))
      case Clear => s.(pending := map[], batch := None)
      case GarbageCollect(retained) =>
        s.(pending := map[], batch := None, files := map f | f in s.files && f in retained :: s.files[f])
  }

  /** The state is consistent between events. */
  ghost predicate Inv(s: State) {
    && (forall f :: f in s.files ==> s.files[f] != [] && StrictStarts(s.files[f]))
    // staged deletes never concern a file in memory, and nothing else is ever staged
    && (forall i :: 0 <= i < |StagedOps(s)| ==> StagedOps(s)[i].Remove? && StagedOps(s)[i].file !in s.files)
    && (forall k :: k in s.pending ==> k < s.nextKey)
  }

  // ----- the actor itself

  class Actor {
    var files: Offsets
    var pending: map<Key, Offsets>
    var nextKey: Key
    var spanBuf: Offsets
    var bytesBuf: seq<Byte>
    var batch: Option<seq<WriteOp>>
    var db: Rows

    ghost function View(): State
      reads this
    {
      State(files, pending, nextKey, batch, db)
    }

    ghost predicate Valid()
      reads this
    {
      Inv(View()) && spanBuf == map[]
    }

    constructor (db: Rows)
      ensures Valid() && View() == Initial(db)
    {
      files, pending, nextKey, spanBuf, bytesBuf := map[], map[], 0, map[], [];
      batch := Some([]);
      this.db := db;
    }

    /** One step of the fold in `run`. The reply is the key of a newly staged batch. */
    method Handle(input: Input) returns (reply: Option<Key>)
      requires Valid()
      modifies this
      ensures Valid() && View() == Step(old(View()), input)
      ensures reply == if input.handleOk && input.event.Update? then Some(old(nextKey)) else None
    {
      reply := None;
      ghost var before := View();
      StepKeepsInv(before, input);
      if !input.handleOk {
        return;
      }
      match input.event {
        case Flush(key) =>
          HandleFlush(key);
          db := if input.writeOk then ApplyOps(db, batch.value) else db;
          batch := None;
        case Update(offsets) =>
          reply := Some(nextKey);
          pending := pending[nextKey := offsets];
          nextKey := nextKey + 1;
        case Delete(f) =>
          files := files - {f};
          batch := Some((if batch.Some? then batch.value else []) + [WriteOp.Remove(f)]);
        case Clear =>
          pending := map[];
          batch := None;
        case GarbageCollect(retained) =>
          pending := map[];
          files := map f | f in files && f in retained :: files[f];
          batch := None;
      }
    }

    /** Merge the staged batch and extend the write batch with the rows it changes. */
    method HandleFlush(key: Option<Key>)
      requires Valid()
      modifies `files, `pending, `spanBuf, `bytesBuf, `batch
      ensures var staged := FlushedBatch(old(View()), key);
              && files == MergedFiles(old(files), staged)
              && pending == (if key.Some? then old(pending) - {key.value} else old(pending))
              && batch.Some?
              && ApplyOps(db, batch.value) == ApplyOps(db, StagedOps(old(View()))) + MergedRows(old(files), staged)
      ensures spanBuf == map[]
    {
      NothingMerged(files);
      var writes := if batch.Some? then batch.value else [];
      if key.Some? {
        if key.value in pending {
          MergeStaged(pending[key.value]);
          writes := DrainSpanBuf(writes);
        }
        pending := pending - {key.value};
      }
      batch := Some(writes);
    }

    /** First loop: move the batch's files into the scratch map, with the new spans inserted. */
    method MergeStaged(staged: Offsets)
      requires Valid()
      modifies `files, `spanBuf
      ensures files == old(files) - staged.Keys
      ensures spanBuf == Scratch(old(files), staged, staged.Keys)
    {
      var todo := staged.Keys;
      while todo != {}
        invariant todo <= staged.Keys
        invariant files == old(files) - (staged.Keys - todo)
        invariant spanBuf == Scratch(old(files), staged, staged.Keys - todo)
        decreases todo
      {
        var f :| f in todo;
        var spans := [];
        if f in spanBuf {
          assert false;
        } else if f in files {
          spans := files[f];
          files := files - {f};
        }
        assert spans == SpansOf(old(files), f);
        spans := InsertSpans(spans, staged[f]);
        ScratchAdd(old(files), staged, staged.Keys - todo, f);
        spanBuf := spanBuf[f := spans];
        assert staged.Keys - (todo - {f}) == (staged.Keys - todo) + {f};
        todo := todo - {f};
      }
    }

    /** Second loop: write each merged file's row and put the file back into memory. */
    method DrainSpanBuf(writes: seq<WriteOp>) returns (out: seq<WriteOp>)
      modifies `files, `spanBuf, `bytesBuf
      ensures files == old(files) + Kept(old(spanBuf)) && spanBuf == map[]
      ensures ApplyOps(db, out) == ApplyOps(db, writes) + RowsOf(old(spanBuf))
    {
      out := writes;
      ghost var drained: Offsets := map[];
      NothingMerged(files);
      while spanBuf != map[]
        invariant drained.Keys <= old(spanBuf).Keys && spanBuf == old(spanBuf) - drained.Keys
        invariant drained == old(spanBuf) - spanBuf.Keys
        invariant files == old(files) + Kept(drained)
        invariant ApplyOps(db, out) == ApplyOps(db, writes) + RowsOf(drained)
        decreases spanBuf.Keys
      {
        var f :| f in spanBuf;
        var spans := spanBuf[f];
        spanBuf := spanBuf - {f};
        MoveEntry(drained, old(spanBuf), f);
        KeptAdd(old(files), drained, f, spans);
        RowsAdd(ApplyOps(db, writes), drained, f, spans);
        if spans != [] {
          out := PutRow(out, f, spans);
          files := files[f := spans];
        }
        drained := drained[f := spans];
      }
      assert drained == old(spanBuf);
    }

    method PutRow(writes: seq<WriteOp>, f: FileId, spans: seq<Span>) returns (out: seq<WriteOp>)
      requires spans != []
      modifies `bytesBuf
      ensures ApplyOps(db, out) == ApplyOps(db, writes)[f := Encode(spans)]
    {
      bytesBuf := EncodeRow(spans);
      out := writes + [Put(f, bytesBuf)];
      assert out[..|writes|] == writes;
    }
  }

  lemma NothingMerged(files: Offsets)
    ensures MergedFiles(files, map[]) == files && MergedRows(files, map[]) == map[]
    ensures Kept(map[]) == map[] && RowsOf(map[]) == map[]
    ensures forall staged :: Scratch(files, staged, {}) == map[]
  {
  }

  lemma ScratchAdd(files: Offsets, staged: Offsets, fs: set<FileId>, f: FileId)
    ensures Scratch(files, staged, fs + {f}) == Scratch(files, staged, fs)[f := MergedSpans(files, staged, f)]
  {
  }

  lemma KeptAdd(base: Offsets, m: Offsets, f: FileId, spans: seq<Span>)
    requires f !in m
    ensures base + Kept(m[f := spans]) == if spans != [] then (base + Kept(m))[f := spans] else base + Kept(m)
  {
  }

  lemma RowsAdd(base: Rows, m: Offsets, f: FileId, spans: seq<Span>)
    requires f !in m
    ensures base + RowsOf(m[f := spans]) == if spans != [] then (base + RowsOf(m))[f := Encode(spans)] else base + RowsOf(m)
  {
    OneMoreRow(m, f, spans);
    if spans != [] {
      assert base + RowsOf(m)[f := Encode(spans)] == (base + RowsOf(m))[f := Encode(spans)];
    }
  }

  lemma OneMoreRow(m: Offsets, f: FileId, spans: seq<Span>)
    requires f !in m
    ensures RowsOf(m[f := spans]) == if spans != [] then RowsOf(m)[f := Encode(spans)] else RowsOf(m)
  {
  }

  lemma MoveEntry(done: Offsets, all: Offsets, f: FileId)
    requires done.Keys <= all.Keys && done == all - (all - done.Keys).Keys
    requires f in all && f !in done
    ensures (all - done.Keys) - {f} == all - done[f := all[f]].Keys
    ensures done[f := all[f]] == all - (all - done[f := all[f]].Keys).Keys
  {
  }

  ghost function Initial(db: Rows): State {
    State(map[], map[], 0, Some([]), db)
  }

  lemma StepKeepsInv(s: State, input: Input)
    requires Inv(s)
    ensures Inv(Step(s, input))
  {
    if input.handleOk {
      var s' := Step(s, input);
      match input.event
      case Flush(key) =>
        var staged := FlushedBatch(s, key);
        forall f | f in staged ensures StrictStarts(MergedSpans(s.files, staged, f)) {
          InsertedAllStarts(SpansOf(s.files, f), staged[f]);
        }
      case Delete(f) =>
        assert StagedOps(s') == StagedOps(s) + [WriteOp.Remove(f)];
        assert s'.files == s.files - {f};
      case Update(_) =>
        assert StagedOps(s') == StagedOps(s);
      case Clear =>
        assert StagedOps(s') == [];
      case GarbageCollect(_) =>
        assert StagedOps(s') == [];
    }
  }
}
