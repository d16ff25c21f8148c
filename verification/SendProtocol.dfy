/**
 Sending, acknowledging, spilling and retrying batches, as interleaved steps
 (common/http/src/client.rs:69-135, common/http/src/retry.rs:84-374).

 Any number of senders, the offset actor behind its queue, the shared quota
 counter and the one consumer of the retry directory move one at a time, in any
 order. Every await point and every atomic operation of the source is a step.
 */
module SendProtocol {
  import opened Prelude
  import opened Spans
  import opened OffsetMaps
  import OffsetActor

  type Key = OffsetActor.Key
  type TaskId = nat
  type Name = nat

  /** The quota counter is a 64-bit word, and so are the limit and every sum with it: they wrap. */
  type Word = x: int | 0 <= x <= U64_MAX

  function Wrap(x: int): Word { x % (U64_MAX + 1) }

  datatype Batch = Batch(id: nat, offsets: Option<Offsets>)

  datatype File = File(batch: Batch, size: nat)

  /**
   What the environment may do. `limit` is the disk quota; `stateful` says that
   the client has offset handles. The `sized` flags rule out that the size of a
   file cannot be read: of leftover files at the start, of a file just written,
   and of a file about to be removed. The last two rule out failures of other
   file operations (and corrupt files), and final refusals.
   */
  datatype Config = Config(
    limit: Option<Word>,
    stateful: bool,
    sizedAtStart: bool,
    sizedAtWrite: bool,
    sizedAtRead: bool,
    ioOk: bool,
    statusOk: bool
  )

  /** Where one call of `send` stands; from `Spilling` on it is inside `retry`. */
  datatype Pc =
    | Starting
    | AwaitingKey
    | Sending(key: Option<Key>)
    | Answered(key: Option<Key>)
    | Spilling
    | Written(size: nat)
    | Reserving(size: nat, charge: nat, attempts: nat)
    | Swapping(size: nat, charge: nat, attempts: nat, seen: Word)
    | Renaming(size: nat, charge: nat)
    | Finished

  datatype Task = Task(batch: Batch, pc: Pc)

  /** Where the reader of the retry directory stands. */
  datatype Consumer =
    | Idle
    | Popped(name: Name)
    | Loaded(name: Name, batch: Batch)
    | Measured(name: Name, batch: Batch, size: nat)
    | Removed(batch: Batch, size: nat)
    | Holding(batch: Batch)

  datatype Message = Staging(task: TaskId, offsets: Offsets) | Other(event: OffsetActor.Event)

  /** Bookkeeping: the one place where a batch is. */
  datatype Place = AtTask(task: TaskId) | AtFile(name: Name) | AtConsumer | AtServer | Nowhere

  /** Bookkeeping that no step reads: what became of the batches. */
  datatype Books = Books(
    owner: map<Key, Batch>,
    acked: set<Batch>,
    dropped: set<Batch>,
    place: map<Batch, Place>
  )

  /**
   Bookkeeping of bytes. `net` is what was added to the counter less what was
   subtracted, without wrapping. `written` is the size of all retry files there
   ever were; it is the only part that is read, as it stays below 2^64.
   */
  datatype Ledger = Ledger(net: int, written: nat, uncharged: int, leaked: nat, overcounted: int)

  datatype State = State(
    tasks: map<TaskId, Task>,
    queue: seq<Message>,
    actor: OffsetActor.State,
    visible: map<Name, File>,
    diskUsed: Word,
    waiting: seq<Name>,
    consumer: Consumer,
    books: Books,
    ledger: Ledger
  )

  datatype Step =
    | Submit(t: TaskId, batch: Batch)
    | Stage(t: TaskId)
    | Act(handleOk: bool, writeOk: bool)
    | Control(event: OffsetActor.Event)
    | AnswerSent(t: TaskId)
    | AnswerRetry(t: TaskId)
    | AnswerRefused(t: TaskId)
    | RequestFlush(t: TaskId)
    | Write(t: TaskId, size: nat)
    | WriteFails(t: TaskId)
    | Measure(t: TaskId)
    | MeasureFails(t: TaskId)
    | Add(t: TaskId)
    | Load(t: TaskId)
    | Swap(t: TaskId)
    | Rename(t: TaskId)
    | RenameFails(t: TaskId)
    | Fill(names: seq<Name>)
    | Pop
    | Read
    | ReadFails
    | MeasureFile
    | MeasureFileFails
    | Remove
    | RemoveFails
    | Subtract
    | Emit(t: TaskId)
    | ParseFails

  /** The steps of the reader of the retry directory; `Emit` is where it hands over to a new sender. */
  predicate OfConsumer(step: Step) {
    step.Fill? || step.Pop? || step.Read? || step.ReadFails? || step.MeasureFile? || step.MeasureFileFails?
    || step.Remove? || step.RemoveFails? || step.Subtract? || step.ParseFails?
  }

  /** The steps of a sender inside `retry`. */
  predicate OfSpill(step: Step) {
    step.Write? || step.WriteFails? || step.Measure? || step.MeasureFails? || step.Add? || step.Load? || step.Swap?
    || step.Rename? || step.RenameFails?
  }

  predicate At(s: State, t: TaskId) { t in s.tasks }

  predicate FreshTask(s: State, t: TaskId) { t !in s.tasks && t !in s.visible }

  /** Files that are in view, each once. */
  predicate Listed(files: map<Name, File>, names: seq<Name>) {
    && (forall i :: 0 <= i < |names| ==> names[i] in files)
    && (forall i, j :: 0 <= i < j < |names| ==> names[i] != names[j])
  }

  predicate Enabled(c: Config, s: State, step: Step) {
    match step
    case Submit(t, b) => FreshTask(s, t) && b !in s.books.place
    case Stage(t) => At(s, t) && s.tasks[t].pc.Starting?
    case Act(_, _) => s.queue != [] && (s.queue[0].Staging? ==> At(s, s.queue[0].task))
    case Control(e) => e.Delete? || e.Clear? || e.GarbageCollect?
    case AnswerSent(t) => At(s, t) && s.tasks[t].pc.Sending?
    case AnswerRetry(t) => At(s, t) && s.tasks[t].pc.Sending?
    case AnswerRefused(t) => !c.statusOk && At(s, t) && s.tasks[t].pc.Sending?
    case RequestFlush(t) => At(s, t) && s.tasks[t].pc.Answered?
    case Write(t, size) => At(s, t) && s.tasks[t].pc.Spilling? && s.ledger.written + size <= U64_MAX
    case WriteFails(t) => !c.ioOk && At(s, t) && s.tasks[t].pc.Spilling?
    case Measure(t) => At(s, t) && s.tasks[t].pc.Written?
    case MeasureFails(t) => !c.sizedAtWrite && At(s, t) && s.tasks[t].pc.Written?
    case Add(t) => c.limit.None? && At(s, t) && s.tasks[t].pc.Reserving?
    case Load(t) => c.limit.Some? && At(s, t) && s.tasks[t].pc.Reserving?
    case Swap(t) => At(s, t) && s.tasks[t].pc.Swapping?
    case Rename(t) => At(s, t) && s.tasks[t].pc.Renaming?
    case RenameFails(t) => !c.ioOk && At(s, t) && s.tasks[t].pc.Renaming?
    case Fill(names) => s.waiting == [] && s.consumer.Idle? && Listed(s.visible, names)
    case Pop => s.waiting != [] && s.consumer.Idle?
    case Read => s.consumer.Popped? && s.consumer.name in s.visible
    case ReadFails => !c.ioOk && s.consumer.Popped?
    case MeasureFile => s.consumer.Loaded? && s.consumer.name in s.visible
    case MeasureFileFails => !c.sizedAtRead && s.consumer.Loaded?
    case Remove => s.consumer.Measured?
    case RemoveFails => !c.ioOk && s.consumer.Measured?
    case Subtract => s.consumer.Removed?
    case Emit(t) => s.consumer.Holding? && FreshTask(s, t)
    case ParseFails => !c.ioOk && s.consumer.Holding?
  }

  // ----- effects

  function Goto(s: State, t: TaskId, pc: Pc): State
    requires t in s.tasks
  {
    s.(tasks := s.tasks[t := s.tasks[t].(pc := pc)])
  }

  function PlacedAt(books: Books, b: Batch, p: Place): Books { books.(place := books.place[b := p]) }

  function GivenUp(books: Books, b: Batch): Books { PlacedAt(books, b, Nowhere).(dropped := books.dropped + {b}) }

  /** The batch of `t` is gone for good. */
  function Drop(s: State, t: TaskId): State
    requires t in s.tasks
  {
    Goto(s, t, Finished).(books := GivenUp(s.books, s.tasks[t].batch))
  }

  function Send(s: State, m: Message): State { s.(queue := s.queue + [m]) }

  function ActorInput(m: Message, handleOk: bool, writeOk: bool): OffsetActor.Input {
    OffsetActor.Input(if m.Staging? then OffsetActor.Update(m.offsets) else m.event, handleOk, writeOk)
  }

  function SizeOf(files: map<Name, File>, n: Name): nat {
    if n in files then files[n].size else 0
  }

  /** The actor takes the oldest message; a staged update answers its sender with the new key, or not at all. */
  function Acted(s: State, handleOk: bool, writeOk: bool): State
    requires s.queue != [] && (s.queue[0].Staging? ==> s.queue[0].task in s.tasks)
  {
    var m := s.queue[0];
    var after := s.(queue := s.queue[1..], actor := OffsetActor.Step(s.actor, ActorInput(m, handleOk, writeOk)));
    if m.Other? then after
    else if !handleOk then Goto(after, m.task, Sending(None))
    else
      Goto(after, m.task, Sending(Some(s.actor.nextKey)))
      .(books := s.books.(owner := s.books.owner[s.actor.nextKey := s.tasks[m.task].batch]))
  }

  /** The charge of `t` is on the counter. */
  function Charged(s: State, t: TaskId, size: nat, charge: nat): State
    requires t in s.tasks
  {
    Goto(s, t, Renaming(size, charge)).(diskUsed := Wrap(s.diskUsed + charge), ledger := s.ledger.(net := s.ledger.net + charge))
  }

  /** One turn of the compare-and-swap loop, after the load. */
  function Swapped(s: State, t: TaskId): State
    requires t in s.tasks && s.tasks[t].pc.Swapping?
  {
    var pc := s.tasks[t].pc;
    if s.diskUsed == pc.seen then Charged(s, t, pc.size, pc.charge)
    else if pc.attempts > 10 then Drop(s, t)
    else Goto(s, t, Reserving(pc.size, pc.charge, pc.attempts + 1))
  }

  function Apply(c: Config, s: State, step: Step): State
    requires Enabled(c, s, step)
  {
    match step
    case Submit(t, b) => s.(tasks := s.tasks[t := Task(b, Starting)], books := PlacedAt(s.books, b, AtTask(t)))
    case Stage(t) =>
      var offsets := s.tasks[t].batch.offsets;
      if c.stateful && offsets.Some? then Send(Goto(s, t, AwaitingKey), Staging(t, offsets.value))
      else Goto(s, t, Sending(None))
    case Act(handleOk, writeOk) => Acted(s, handleOk, writeOk)
    case Control(e) => Send(s, Other(e))
    case AnswerSent(t) =>
      var b := s.tasks[t].batch;
      Goto(s, t, Answered(s.tasks[t].pc.key)).(books := PlacedAt(s.books, b, AtServer).(acked := s.books.acked + {b}))
    case AnswerRetry(t) => Goto(s, t, Spilling)
    case AnswerRefused(t) => Drop(s, t)
    case RequestFlush(t) =>
      var done := Goto(s, t, Finished);
      if c.stateful then Send(done, Other(OffsetActor.Flush(s.tasks[t].pc.key))) else done
    case Write(t, size) => Goto(s, t, Written(size)).(ledger := s.ledger.(written := s.ledger.written + size))
    case WriteFails(t) => Drop(s, t)
    case Measure(t) => Goto(s, t, Reserving(s.tasks[t].pc.size, s.tasks[t].pc.size, 1))
    case MeasureFails(t) => Goto(s, t, Reserving(s.tasks[t].pc.size, 0, 1))
    case Add(t) => Charged(s, t, s.tasks[t].pc.size, s.tasks[t].pc.charge)
    case Load(t) =>
      var pc := s.tasks[t].pc;
      if Wrap(s.diskUsed + pc.charge) > c.limit.value then Drop(s, t)
      else Goto(s, t, Swapping(pc.size, pc.charge, pc.attempts, s.diskUsed))
    case Swap(t) => Swapped(s, t)
    case Rename(t) =>
      var task := s.tasks[t];
      Goto(s, t, Finished).(
        visible := s.visible[t := File(task.batch, task.pc.size)],
        books := PlacedAt(s.books, task.batch, AtFile(t)),
        ledger := s.ledger.(uncharged := s.ledger.uncharged + task.pc.size - task.pc.charge))
    case RenameFails(t) =>
      Drop(s, t).(ledger := s.ledger.(leaked := s.ledger.leaked + s.tasks[t].pc.charge))
    case Fill(names) => s.(waiting := names)
    case Pop => s.(waiting := s.waiting[1..], consumer := Popped(s.waiting[0]))
    case Read => s.(consumer := Loaded(s.consumer.name, s.visible[s.consumer.name].batch))
    case ReadFails => s.(consumer := Idle)
    case MeasureFile => s.(consumer := Measured(s.consumer.name, s.consumer.batch, s.visible[s.consumer.name].size))
    case MeasureFileFails => s.(consumer := Measured(s.consumer.name, s.consumer.batch, 0))
    case Remove =>
      s.(visible := s.visible - {s.consumer.name}, consumer := Removed(s.consumer.batch, s.consumer.size),
         books := PlacedAt(s.books, s.consumer.batch, AtConsumer),
         ledger := s.ledger.(overcounted := s.ledger.overcounted + SizeOf(s.visible, s.consumer.name) - s.consumer.size))
    case RemoveFails => s.(consumer := Idle)
    case Subtract =>
      s.(diskUsed := Wrap(s.diskUsed - s.consumer.size), consumer := Holding(s.consumer.batch),
         ledger := s.ledger.(net := s.ledger.net - s.consumer.size))
    case Emit(t) =>
      s.(tasks := s.tasks[t := Task(s.consumer.batch, Starting)], consumer := Idle,
         books := PlacedAt(s.books, s.consumer.batch, AtTask(t)))
    case ParseFails =>
      s.(consumer := Idle, books := GivenUp(s.books, s.consumer.batch))
  }

  // ----- runs

  /** Before the first step: what was counted was added, what was not is missing. */
  function Opening(counted: Word, total: nat): Ledger { Ledger(counted, total, total - counted, 0, 0) }

  /** The counter starts with the leftover retry files whose size could be read. */
  ghost predicate Counted(c: Config, s: State) {
    exists unread: set<Name> ::
      && unread <= s.visible.Keys && (c.sizedAtStart ==> unread == {})
      && s.diskUsed == Total(Sizes(s.visible - unread))
  }

  /** A fresh start: leftover retry files are on disk and counted, nothing else has happened. */
  ghost predicate Init(c: Config, s: State) {
    && s.tasks == map[] && s.queue == [] && s.waiting == [] && s.consumer.Idle?
    && s.actor == OffsetActor.Initial(s.actor.db)
    && s.books.owner == map[] && s.books.acked == {} && s.books.dropped == {}
    && Counted(c, s) && Total(Sizes(s.visible)) <= U64_MAX && s.ledger == Opening(s.diskUsed, Total(Sizes(s.visible)))
    && (forall m, n :: m in s.visible && n in s.visible && s.visible[m].batch == s.visible[n].batch ==> m == n)
    && (forall b :: b in s.books.place <==> exists n :: n in s.visible && s.visible[n].batch == b)
    && (forall n :: n in s.visible ==> s.books.place[s.visible[n].batch] == AtFile(n))
  }

  ghost predicate IsRun(c: Config, states: seq<State>, steps: seq<Step>) {
    && |states| == |steps| + 1
    && Init(c, states[0])
    && forall i {:trigger steps[i]} :: 0 <= i < |steps| ==> Enabled(c, states[i], steps[i]) && states[i + 1] == Apply(c, states[i], steps[i])
  }

  // ----- sums

  ghost function Total(m: map<nat, nat>): nat
    decreases |m|
  {
    if m == map[] then 0 else
      var k :| k in m;
      m[k] + Total(m - {k})
  }

  lemma {:induction false} TotalRemove(m: map<nat, nat>, k: nat)
    requires k in m
    ensures Total(m) == m[k] + Total(m - {k})
    decreases |m|
  {
    var j :| j in m && Total(m) == m[j] + Total(m - {j});
    if j != k {
      TotalRemove(m - {j}, k);
      TotalRemove(m - {k}, j);
      assert m - {j} - {k} == m - {k} - {j};
    }
  }

  lemma TotalUpdate(m: map<nat, nat>, k: nat, v: nat)
    ensures Total(m[k := v]) == Total(m) + v - (if k in m then m[k] else 0)
  {
    TotalRemove(m[k := v], k);
    assert m[k := v] - {k} == m - {k};
    if k in m { TotalRemove(m, k); } else { assert m - {k} == m; }
  }

  function Sizes(files: map<Name, File>): map<nat, nat> {
    map n | n in files :: files[n].size
  }

  /** One weight for each sender, by where it stands. */
  function Weights(weigh: Pc -> nat, tasks: map<TaskId, Task>): map<nat, nat> {
    map t | t in tasks :: weigh(tasks[t].pc)
  }

  /** Reserved on the counter and not yet renamed. */
  function Reservation(pc: Pc): nat {
    if pc.Renaming? then pc.charge else 0
  }

  /** Removed from the directory and not yet subtracted. */
  function Unsubtracted(consumer: Consumer): nat {
    if consumer.Removed? then consumer.size else 0
  }

  /** What the counter stands for: the files in view, what is reserved for more, and what is removed but not yet subtracted. */
  ghost function Held(s: State): nat {
    Total(Sizes(s.visible)) + Total(Weights(Reservation, s.tasks)) + Unsubtracted(s.consumer)
  }
}
